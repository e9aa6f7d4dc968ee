/** `main` (gorilla_binpacker.cpp): the command line, loading the inputs,
    and the search for a bin size into which the packer fits everything.
    The packer is an oracle: a function from the items and a bin size to
    what it placed and what it left over. */
module Driver {
  import opened Wrappers
  import opened FileNames
  import opened FontParser
  import opened Contents
  import opened Atlas

  // ---------------------------------------------------------------------
  // The command line.

  /** The input names and the output name read from the command line. */
  datatype Args = Args(inputs: seq<string>, output: string)

  /** The argument loop from position `i` of `args` (argv without the
      program name), with what has been read before `i`.  `-o` takes the
      next argument as the output name; anything else is an input.  `None`
      when `-o` is the last argument: the program then reads `argv[argc]`,
      which is undefined behaviour. */
  function ParseFrom(args: seq<string>, i: nat, acc: Args): Option<Args>
    decreases |args| - i
  {
    if i >= |args| then Some(acc)
    else if args[i] == "-o" then
      if i + 1 < |args| then ParseFrom(args, i + 2, acc.(output := args[i + 1]))
      else None
    else ParseFrom(args, i + 1, acc.(inputs := acc.inputs + [args[i]]))
  }

  function Parse(args: seq<string>): Option<Args>
  {
    ParseFrom(args, 0, Args([], ""))
  }

  /** The argument loop of `main`. */
  method ParseArguments(args: seq<string>) returns (a: Args)
    requires Parse(args).Some?
    ensures Parse(args) == Some(a)
  {
    var inputs: seq<string> := [];
    var output := "";
    var i := 0;
    while i < |args|
      invariant 0 <= i <= |args|
      invariant ParseFrom(args, i, Args(inputs, output)) == Parse(args)
    {
      if args[i] == "-o" && i + 1 < |args| {
        output := args[i + 1];
        i := i + 2;
      } else {
        inputs := inputs + [args[i]];
        i := i + 1;
      }
    }
    return Args(inputs, output);
  }

  /** Without any `-o`, every argument is an input, in order, and there is
      no output name. */
  lemma {:induction false} ParseWithoutFlag(args: seq<string>, i: nat, acc: Args)
    decreases |args| - i
    requires i <= |args|
    requires forall k :: i <= k < |args| ==> args[k] != "-o"
    ensures ParseFrom(args, i, acc) == Some(Args(acc.inputs + args[i..], acc.output))
  {
    if i == |args| {
      assert acc.inputs + args[i..] == acc.inputs;
    } else {
      ParseWithoutFlag(args, i + 1, acc.(inputs := acc.inputs + [args[i]]));
      assert acc.inputs + [args[i]] + args[i + 1..] == acc.inputs + args[i..];
    }
  }

  /** `-o` is never taken as an input name: each one either consumes the
      argument after it or is the undefined trailing case. */
  lemma {:induction false} ParseFlagNotInput(args: seq<string>, i: nat, acc: Args)
    decreases |args| - i
    requires "-o" !in acc.inputs
    ensures ParseFrom(args, i, acc).Some? ==> "-o" !in ParseFrom(args, i, acc).value.inputs
  {
    if i < |args| {
      if args[i] == "-o" {
        if i + 1 < |args| {
          ParseFlagNotInput(args, i + 2, acc.(output := args[i + 1]));
        }
      } else {
        ParseFlagNotInput(args, i + 1, acc.(inputs := acc.inputs + [args[i]]));
      }
    }
  }

  /** Every input name is one of the arguments, and the output name, when
      set, is an argument that follows a `-o`. */
  lemma {:induction false} ParseTakesArguments(args: seq<string>, i: nat, acc: Args)
    decreases |args| - i
    requires ParseFrom(args, i, acc).Some?
    ensures forall x :: x in ParseFrom(args, i, acc).value.inputs ==> x in acc.inputs || x in args[i..]
    ensures ParseFrom(args, i, acc).value.output == acc.output || OutputAfterFlag(args, i, ParseFrom(args, i, acc).value.output)
  {
    if i < |args| {
      if args[i] == "-o" {
        var acc' := acc.(output := args[i + 1]);
        ParseTakesArguments(args, i + 2, acc');
        assert forall x :: x in args[i + 2..] ==> x in args[i..];
        assert args[i + 1] == args[i..][1];
        assert OutputAfter(args, i, args[i + 1]);
        if ParseFrom(args, i + 2, acc').value.output != acc'.output {
          var k :| i + 2 <= k && OutputAfter(args, k, ParseFrom(args, i + 2, acc').value.output);
          assert OutputAfterFlag(args, i, ParseFrom(args, i, acc).value.output);
        }
      } else {
        var acc' := acc.(inputs := acc.inputs + [args[i]]);
        ParseTakesArguments(args, i + 1, acc');
        assert forall x :: x in args[i + 1..] ==> x in args[i..];
        assert args[i] in args[i..];
        if ParseFrom(args, i + 1, acc').value.output != acc'.output {
          var k :| i + 1 <= k && OutputAfter(args, k, ParseFrom(args, i + 1, acc').value.output);
          assert OutputAfterFlag(args, i, ParseFrom(args, i, acc).value.output);
        }
      }
    }
  }

  /** A stretch of arguments without `-o` is read as inputs, in order,
      and leaves the output name as it was. */
  lemma {:induction false} ParsePrefix(args: seq<string>, i: nat, k: nat, acc: Args)
    decreases k - i
    requires i <= k <= |args|
    requires forall j :: i <= j < k ==> args[j] != "-o"
    ensures ParseFrom(args, i, acc) == ParseFrom(args, k, acc.(inputs := acc.inputs + args[i..k]))
  {
    if i == k {
      assert acc.inputs + args[i..k] == acc.inputs;
    } else {
      ParsePrefix(args, i + 1, k, acc.(inputs := acc.inputs + [args[i]]));
      assert acc.inputs + [args[i]] + args[i + 1..k] == acc.inputs + args[i..k];
    }
  }

  /** At the first `-o` from `i` on, when an argument follows it: the
      arguments before it are inputs, in order, the argument after it
      becomes the output name, replacing any earlier one, and reading goes
      on after that argument.  With `ParseWithoutFlag` for the arguments
      after the last such `-o`, this settles the whole command line: the
      output name is the argument after the last `-o` that takes one, and
      every argument that is neither such a `-o` nor the name after it is
      an input, in order. */
  lemma {:induction false} ParseAtFlag(args: seq<string>, i: nat, k: nat, acc: Args)
    requires i <= k && k + 1 < |args| && args[k] == "-o"
    requires forall j :: i <= j < k ==> args[j] != "-o"
    ensures ParseFrom(args, i, acc) == ParseFrom(args, k + 2, Args(acc.inputs + args[i..k], args[k + 1]))
  {
    ParsePrefix(args, i, k, acc);
  }

  /** A command line with one `-o` followed by a name: that name is the
      output, and all the other arguments are the inputs, in order. */
  lemma ParseOneFlag(args: seq<string>, k: nat)
    requires k + 1 < |args| && args[k] == "-o"
    requires forall j :: 0 <= j < |args| && j != k && j != k + 1 ==> args[j] != "-o"
    ensures Parse(args) == Some(Args(args[..k] + args[k + 2..], args[k + 1]))
  {
    ParseAtFlag(args, 0, k, Args([], ""));
    assert [] + args[0..k] == args[..k];
    ParseWithoutFlag(args, k + 2, Args(args[..k], args[k + 1]));
  }

  /** Argument `k` is `-o` and the one after it is `out`. */
  ghost predicate OutputAfter(args: seq<string>, k: int, out: string) {
    0 <= k && k + 1 < |args| && args[k] == "-o" && args[k + 1] == out
  }

  /** Some `-o` at or after `i` is followed by `out`. */
  ghost predicate OutputAfterFlag(args: seq<string>, i: nat, out: string) {
    exists k :: i <= k && OutputAfter(args, k, out)
  }

  // ---------------------------------------------------------------------
  // The bin sizes.

  const MinBinDimension: nat := 128

  /** `curr_size` in round `k` of the search. */
  function CurrSize(k: nat): nat
    decreases k, 0
  {
    if k == 0 then MinBinDimension else NextSize(k - 1)
  }

  /** `next_size` in round `k`: twice `curr_size`, as an `unsigned`. */
  function NextSize(k: nat): nat
    decreases k, 1
  {
    U32(CurrSize(k) * 2)
  }

  function Pow2(k: nat): nat
  {
    if k == 0 then 1 else 2 * Pow2(k - 1)
  }

  lemma {:induction false} Pow2Add(a: nat, b: nat)
    decreases b
    ensures Pow2(a + b) == Pow2(a) * Pow2(b)
  {
    if b > 0 {
      Pow2Add(a, b - 1);
      assert Pow2(a + b) == 2 * Pow2(a + b - 1);
    }
  }

  lemma {:induction false} Pow2Of23()
    ensures Pow2(23) == 0x80_0000
  {
    Pow2Add(12, 11);
    assert Pow2(12) == 0x1000 && Pow2(11) == 0x800;
  }

  lemma {:induction false} Pow2Monotone(k: nat, n: nat)
    decreases n - k
    requires k <= n
    ensures Pow2(k) <= Pow2(n)
  {
    if k < n {
      Pow2Monotone(k + 1, n);
    }
  }

  /** For 24 rounds the sizes double exactly: `curr_size` is 128 * 2^k
      and `next_size` is twice it. */
  lemma {:induction false} SizesDouble(k: nat)
    requires k < 24
    ensures CurrSize(k) == 128 * Pow2(k)
    ensures NextSize(k) == 2 * CurrSize(k)
  {
    if k > 0 {
      SizesDouble(k - 1);
    }
    Pow2Monotone(k, 23);
    Pow2Of23();
  }

  /** Then `next_size` overflows: round 24 pairs 2^31 with 0, and from
      round 25 on both sizes are 0. */
  lemma {:induction false} SizesWrap(k: nat)
    requires k >= 24
    ensures k == 24 ==> CurrSize(k) == 0x8000_0000 && NextSize(k) == 0
    ensures k > 24 ==> CurrSize(k) == 0 && NextSize(k) == 0
  {
    if k == 24 {
      SizesDouble(23);
      Pow2Of23();
    } else {
      SizesWrap(k - 1);
    }
  }

  /** The round of the loop of `main` that tries the `t`-th size, and the
      position of that size within the round: the quotient and remainder
      of `t` by 3. */
  function Round(t: nat): (k: nat)
    ensures 3 * k <= t < 3 * k + 3
  {
    if t < 3 then 0 else Round(t - 3) + 1
  }

  function Slot(t: nat): (j: nat)
    ensures j < 3 && j == t - 3 * Round(t)
  {
    if t < 3 then t else Slot(t - 3)
  }

  /** Size `j` of round `k` is the `(3k + j)`-th size tried. */
  lemma {:induction false} RoundSlot(k: nat, j: nat)
    requires j < 3
    ensures Round(3 * k + j) == k && Slot(3 * k + j) == j
  {
    if k > 0 {
      RoundSlot(k - 1, j);
      assert 3 * k + j - 3 == 3 * (k - 1) + j;
    }
  }

  /** A bin size: width and height. */
  type Size = (nat, nat)

  /** The `t`-th size tried: (D, D), (2D, D), (D, 2D) in round `t / 3`. */
  function Candidate(t: nat): Size
  {
    var c := CurrSize(Round(t));
    var n := NextSize(Round(t));
    if Slot(t) == 0 then (c, c) else if Slot(t) == 1 then (n, c) else (c, n)
  }

  lemma {:induction false} CandidatesOfRound(k: nat)
    ensures Candidate(3 * k) == (CurrSize(k), CurrSize(k))
    ensures Candidate(3 * k + 1) == (NextSize(k), CurrSize(k))
    ensures Candidate(3 * k + 2) == (CurrSize(k), NextSize(k))
  {
    RoundSlot(k, 0);
    RoundSlot(k, 1);
    RoundSlot(k, 2);
  }

  // ---------------------------------------------------------------------
  // The search.

  /** The rectangle packer: what it places and leaves over when fitting
      the items into one bin of the given width and height. */
  type Packer = (seq<Content>, nat, nat) -> Packing

  /** Everything one run depends on once the command line is read. */
  datatype Run = Run(files: Files, output: string, items: seq<Content>, pack: Packer)

  /** How the program ends. */
  datatype Exit =
    | Usage                                             // prints the usage line, returns 1
    | Crashed(error: Error)                             // an uncaught exception
    | Done(width: nat, height: nat, descriptor: Gorilla) // the atlas is written
    | GaveUp                                            // the search ran out of rounds

  /** What the `packImages` call for each candidate size does, in the
      order the sizes are tried. */
  function Attempts(run: Run): nat -> Result<Outcome>
  {
    (t: nat) => PackOutcome(run.files, run.output, PackingAt(run, t))
  }

  /** What the packer does with the `t`-th candidate size. */
  function PackingAt(run: Run, t: nat): Packing
  {
    run.pack(run.items, Candidate(t).0, Candidate(t).1)
  }

  /** The `t`-th attempt finds that something does not fit. */
  predicate Declines(attempts: nat -> Result<Outcome>, t: nat) {
    attempts(t) == Ok(NotPlaced)
  }

  /** How an attempt that did not decline ends the program. */
  function ExitOf(o: Result<Outcome>, size: Size): (r: Exit)
    requires o != Ok(NotPlaced)
    ensures r.Crashed? || r.Done?
  {
    match o
    case Err(e) => Crashed(e)
    case Ok(Written(g)) => Done(size.0, size.1, g)
  }

  /** The candidates from `t` up to `limit` tried in turn. */
  function Try(attempts: nat -> Result<Outcome>, t: nat, limit: nat): Exit
    decreases limit - t
  {
    if t >= limit then GaveUp
    else if Declines(attempts, t) then Try(attempts, t + 1, limit)
    else ExitOf(attempts(t), Candidate(t))
  }

  /** Candidate `s` is the first from `t` on that does not decline. */
  ghost predicate FirstTaken(attempts: nat -> Result<Outcome>, t: nat, s: nat, limit: nat) {
    t <= s < limit && !Declines(attempts, s) && forall u :: t <= u < s ==> Declines(attempts, u)
  }

  /** The search gives up only when every candidate declines. */
  lemma {:induction false} TryGivesUp(attempts: nat -> Result<Outcome>, t: nat, limit: nat)
    decreases limit - t
    ensures Try(attempts, t, limit).GaveUp? <==> forall s :: t <= s < limit ==> Declines(attempts, s)
  {
    if t < limit && Declines(attempts, t) {
      TryGivesUp(attempts, t + 1, limit);
    }
  }

  /** Otherwise it ends with the first candidate that does not decline:
      its atlas, or the error it throws; never with the usage message. */
  lemma {:induction false} TryFirstFit(attempts: nat -> Result<Outcome>, t: nat, limit: nat)
    decreases limit - t
    requires !Try(attempts, t, limit).GaveUp?
    ensures exists s :: FirstTaken(attempts, t, s, limit) && Try(attempts, t, limit) == ExitOf(attempts(s), Candidate(s))
  {
    if Declines(attempts, t) {
      TryFirstFit(attempts, t + 1, limit);
      var s :| FirstTaken(attempts, t + 1, s, limit) && Try(attempts, t + 1, limit) == ExitOf(attempts(s), Candidate(s));
      assert FirstTaken(attempts, t, s, limit);
    } else {
      assert FirstTaken(attempts, t, t, limit);
    }
  }

  /** From round 25 on every candidate is 0 by 0, so the packer is given
      the same request again and again: a search that gave up after 26
      rounds or more would, without a bound, go on declining for ever, as
      the unbounded loop of `main` does. */
  lemma GaveUpMeansForever(run: Run, rounds: nat, t: nat)
    requires rounds >= 26 && Try(Attempts(run), 0, 3 * rounds).GaveUp?
    ensures Declines(Attempts(run), t)
  {
    TryGivesUp(Attempts(run), 0, 3 * rounds);
    if t >= 3 * rounds {
      RoundSlot(25, 0);
      SizesWrap(25);
      SizesWrap(Round(t));
      assert Candidate(t) == (0, 0) == Candidate(75);
      assert PackingAt(run, t) == PackingAt(run, 75);
      assert Declines(Attempts(run), 75);
    }
  }

  /** A declined candidate passes the search on to the next one. */
  lemma {:induction false} TrySkips(attempts: nat -> Result<Outcome>, t: nat, limit: nat)
    requires t < limit && Declines(attempts, t)
    ensures Try(attempts, t, limit) == Try(attempts, t + 1, limit)
  {
  }

  /** One `packImages` call of the loop of `main`, for candidate `t`: it
      either ends the search or passes it on to the next candidate. */
  method TryCandidate(run: Run, t: nat, size: Size, limit: nat) returns (r: Option<Exit>)
    requires t < limit && size == Candidate(t)
    ensures r.Some? ==> r.value == Try(Attempts(run), t, limit)
    ensures r.None? ==> Try(Attempts(run), t + 1, limit) == Try(Attempts(run), t, limit)
  {
    var packing := run.pack(run.items, size.0, size.1);
    assert packing == PackingAt(run, t);
    var o := PackImages(run.files, run.output, packing);
    if o != Ok(NotPlaced) {
      return Some(ExitOf(o, size));
    }
    TrySkips(Attempts(run), t, limit);
    return None;
  }

  /** One round of the loop of `main`: the sizes (D, D), (2D, D) and
      (D, 2D) in turn, stopping at the first that does not decline. */
  method TryRound(run: Run, k: nat, curr: nat, next: nat, limit: nat) returns (r: Option<Exit>)
    requires curr == CurrSize(k) && next == NextSize(k) && 3 * k + 3 <= limit
    ensures r.Some? ==> r.value == Try(Attempts(run), 3 * k, limit)
    ensures r.None? ==> Try(Attempts(run), 3 * k + 3, limit) == Try(Attempts(run), 3 * k, limit)
  {
    CandidatesOfRound(k);
    r := TryCandidate(run, 3 * k, (curr, curr), limit);
    if r.Some? {
      return;
    }
    r := TryCandidate(run, 3 * k + 1, (next, curr), limit);
    if r.Some? {
      return;
    }
    r := TryCandidate(run, 3 * k + 2, (curr, next), limit);
  }

  /** The `while (true)` loop of `main`, cut off after `rounds` rounds. */
  method SearchSize(run: Run, rounds: nat) returns (r: Exit)
    ensures r == Try(Attempts(run), 0, 3 * rounds)
  {
    var curr := MinBinDimension;
    var next := U32(curr * 2);
    var k := 0;
    while k < rounds
      invariant k <= rounds && curr == CurrSize(k) && next == NextSize(k)
      invariant Try(Attempts(run), 3 * k, 3 * rounds) == Try(Attempts(run), 0, 3 * rounds)
    {
      var exit := TryRound(run, k, curr, next, 3 * rounds);
      if exit.Some? {
        return exit.value;
      }
      assert CurrSize(k + 1) == next && 3 * (k + 1) == 3 * k + 3;
      curr := next;
      next := U32(next * 2);
      k := k + 1;
    }
    return GaveUp;
  }

  /** `main`: usage error, a thrown error while loading, or the search. */
  method RunBinpacker(args: seq<string>, files: Files, pack: Packer, rounds: nat)
    returns (r: Exit)
    requires Parse(args).Some?
    ensures r == Usage <==> |Parse(args).value.inputs| == 0 || Parse(args).value.output == ""
    ensures r != Usage && LoadAll(files, Parse(args).value.inputs).Err? ==>
      r == Crashed(LoadAll(files, Parse(args).value.inputs).error)
    ensures r != Usage && LoadAll(files, Parse(args).value.inputs).Ok? ==>
      r == Try(Attempts(Run(files, Parse(args).value.output, LoadAll(files, Parse(args).value.inputs).value, pack)), 0, 3 * rounds)
  {
    var a := ParseArguments(args);
    if |a.inputs| == 0 || a.output == "" {
      return Usage;
    }
    var items := LoadImages(files, a.inputs);
    if items.Err? {
      return Crashed(items.error);
    }
    TryNeverUsage(Attempts(Run(files, a.output, items.value, pack)), 0, 3 * rounds);
    r := SearchSize(Run(files, a.output, items.value, pack), rounds);
  }

  lemma {:induction false} TryNeverUsage(attempts: nat -> Result<Outcome>, t: nat, limit: nat)
    decreases limit - t
    ensures Try(attempts, t, limit) != Usage
  {
    if t < limit && Declines(attempts, t) {
      TryNeverUsage(attempts, t + 1, limit);
    }
  }

  /** When the packer fits every loaded item, and places nothing else, into
      a bin and the output format is known, that attempt writes the
      descriptor next to the output image: the white pixel is always
      found and every font block can be written again. */
  lemma {:induction false} FitWritesDescriptor(files: Files, names: seq<string>, output: string, packing: Packing)
    requires LoadAll(files, names).Ok?
    requires |packing.remainder| == 0 && output in files.knownFormats
    requires forall j :: 0 <= j < |packing.placed| ==> packing.placed[j].content in LoadAll(files, names).value
    requires forall c :: c in LoadAll(files, names).value ==>
      exists j :: 0 <= j < |packing.placed| && packing.placed[j].content == c
    ensures PackOutcome(files, output, packing).Ok?
    ensures PackOutcome(files, output, packing).value.Written?
    ensures PackOutcome(files, output, packing).value.descriptor.path == SideCarPath(output)
  {
    var items := LoadAll(files, names).value;
    LoadAllWhitePixel(files, names);
    assert WhitePixelContent in items;
    forall j | 0 <= j < |packing.placed|
      ensures Loaded(packing.placed[j].content)
    {
      var i :| 0 <= i < |items| && items[i] == packing.placed[j].content;
    }
    PackOutcomeWritten(files, output, packing);
  }
}
