/** The pieces of the C and C++ string libraries the tool relies on:
    `std::string::find`, `find_last_of`, `substr`, `atoi`, and the decimal
    rendering done by `operator<<` on integers.  `npos` is `None`. */
module Text {
  import opened Wrappers

  /** `isspace` in the "C" locale. */
  predicate IsSpace(c: char) {
    c == ' ' || c == '\t' || c == '\n' || c == '\U{B}' || c == '\U{C}' || c == '\r'
  }

  predicate IsDigit(c: char) {
    '0' <= c <= '9'
  }

  function DigitValue(c: char): nat
    requires IsDigit(c)
  {
    (c as int) - ('0' as int)
  }

  function DigitChar(d: nat): (c: char)
    requires d < 10
    ensures IsDigit(c) && DigitValue(c) == d
  {
    ((d + '0' as int) as char)
  }

  /** A whitespace-free, non-empty word, as one field of a descriptor line. */
  predicate IsToken(s: string) {
    |s| > 0 && forall k :: 0 <= k < |s| ==> !IsSpace(s[k])
  }

  /** `s.find(c, from)`: the first index at or after `from` that holds `c`. */
  function FindChar(s: string, c: char, from: nat): (r: Option<nat>)
    decreases |s| - from
    ensures r.Some? ==> from <= r.value < |s| && s[r.value] == c
  {
    if from >= |s| then None
    else if s[from] == c then Some(from)
    else FindChar(s, c, from + 1)
  }

  /** `find` reports the FIRST occurrence: nothing before it matches, and
      `npos` means nothing at or after `from` does. */
  lemma {:induction false} FindCharIsFirst(s: string, c: char, from: nat)
    decreases |s| - from
    ensures FindChar(s, c, from).Some? ==> forall k :: from <= k < FindChar(s, c, from).value ==> s[k] != c
    ensures FindChar(s, c, from).None? ==> forall k :: from <= k < |s| ==> s[k] != c
  {
    if from < |s| && s[from] != c {
      FindCharIsFirst(s, c, from + 1);
    }
  }

  /** `s.find_last_of(c)`: the last index that holds `c`. */
  function FindLast(s: string, c: char): (r: Option<nat>)
    ensures r.Some? ==> r.value < |s| && s[r.value] == c
    ensures r.Some? ==> forall k :: r.value < k < |s| ==> s[k] != c
    ensures r.None? ==> forall k :: 0 <= k < |s| ==> s[k] != c
  {
    if |s| == 0 then None
    else if s[|s| - 1] == c then Some(|s| - 1)
    else FindLast(s[..|s| - 1], c)
  }

  /** `s.substr(pos, count)`: `count` characters from `pos`, or up to the end
      of `s` when `count` is `npos` or reaches past it. */
  function Substr(s: string, pos: nat, count: Option<nat>): (r: string)
    requires pos <= |s|
  {
    if count.None? || pos + count.value > |s| then s[pos..] else s[pos..pos + count.value]
  }

  /** `pat` occurs in `s` starting at index `i`. */
  predicate OccursAt(s: string, pat: string, i: nat) {
    i + |pat| <= |s| && s[i..i + |pat|] == pat
  }

  /** `s.find(pat) != npos`. */
  predicate Contains(s: string, pat: string) {
    exists i: nat | i <= |s| :: OccursAt(s, pat, i)
  }

  /** `s` without its leading white space. */
  function SkipSpaces(s: string): string
  {
    if |s| > 0 && IsSpace(s[0]) then SkipSpaces(s[1..]) else s
  }

  /** The value of the run of decimal digits that opens `s`, accumulated
      onto `acc`. */
  function DigitRun(s: string, acc: int): int
  {
    if |s| > 0 && IsDigit(s[0]) then DigitRun(s[1..], acc * 10 + DigitValue(s[0])) else acc
  }

  /** C's `atoi`: skip leading white space, read an optional sign, then the
      longest run of digits; anything else yields 0.  Overflow, which is
      undefined in C, is not modelled: the result is an unbounded integer. */
  function Atoi(s: string): int
  {
    var t := SkipSpaces(s);
    if |t| > 0 && t[0] == '-' then -DigitRun(t[1..], 0)
    else if |t| > 0 && t[0] == '+' then DigitRun(t[1..], 0)
    else DigitRun(t, 0)
  }

  /** Decimal rendering of an unsigned value, as `operator<<` writes it. */
  function NatToString(n: nat): (r: string)
    ensures |r| > 0 && forall k :: 0 <= k < |r| ==> IsDigit(r[k])
  {
    if n < 10 then [DigitChar(n)] else NatToString(n / 10) + [DigitChar(n % 10)]
  }

  /** Decimal rendering of a signed value, as `operator<<` writes it. */
  function IntToString(v: int): (r: string)
    ensures IsToken(r)
  {
    if v < 0 then "-" + NatToString(-v) else NatToString(v)
  }

  /** Appending one digit to an all-digit prefix shifts its value one place. */
  lemma {:induction false} DigitRunSnoc(u: string, c: char, acc: int)
    requires forall k :: 0 <= k < |u| ==> IsDigit(u[k])
    requires IsDigit(c)
    ensures DigitRun(u + [c], acc) == DigitRun(u, acc) * 10 + DigitValue(c)
  {
    if |u| == 0 {
      assert u + [c] == [c];
      assert [c][1..] == [];
    } else {
      assert (u + [c])[1..] == u[1..] + [c];
      DigitRunSnoc(u[1..], c, acc * 10 + DigitValue(u[0]));
    }
  }

  /** A digit run ends where the next character is not a digit. */
  lemma {:induction false} DigitRunStops(u: string, t: string, acc: int)
    requires t == [] || !IsDigit(t[0])
    ensures DigitRun(u + t, acc) == DigitRun(u, acc)
  {
    if |u| == 0 {
      assert u + t == t;
    } else if IsDigit(u[0]) {
      assert (u + t)[1..] == u[1..] + t;
      DigitRunStops(u[1..], t, acc * 10 + DigitValue(u[0]));
    }
  }

  /** `atoi` reads back exactly what `operator<<` wrote for an unsigned value. */
  lemma {:induction false} DigitRunOfNatToString(n: nat)
    ensures DigitRun(NatToString(n), 0) == n
  {
    if n < 10 {
      assert NatToString(n)[1..] == [];
    } else {
      DigitRunOfNatToString(n / 10);
      DigitRunSnoc(NatToString(n / 10), DigitChar(n % 10), 0);
    }
  }

  /** `atoi` reads back exactly what `operator<<` wrote for a signed value. */
  lemma {:induction false} AtoiOfIntToString(v: int)
    ensures Atoi(IntToString(v)) == v
  {
    var s := IntToString(v);
    assert SkipSpaces(s) == s;
    if v < 0 {
      assert s[1..] == NatToString(-v);
      DigitRunOfNatToString(-v);
    } else {
      DigitRunOfNatToString(v);
    }
  }

  /** A field introduced by one space and ended by a space (or the end of
      the text) is read by `atoi` as the field alone, provided it does not
      itself open with white space. */
  lemma {:induction false} AtoiOfField(a: string, t: string)
    requires |a| > 0 && !IsSpace(a[0])
    requires t == [] || t[0] == ' '
    ensures Atoi([' '] + a + t) == Atoi(a)
  {
    assert [' '] + a + t == [' '] + (a + t);
    AtoiSkipsSpace(a + t);
    AtoiOfToken(a, t);
  }

  /** `atoi` ignores a leading space. */
  lemma {:induction false} AtoiSkipsSpace(u: string)
    ensures Atoi([' '] + u) == Atoi(u)
  {
    assert ([' '] + u)[1..] == u;
  }

  /** `atoi` stops reading a token at the space that follows it. */
  lemma {:induction false} AtoiOfToken(a: string, t: string)
    requires |a| > 0 && !IsSpace(a[0])
    requires t == [] || t[0] == ' '
    ensures Atoi(a + t) == Atoi(a)
  {
    assert (a + t)[0] == a[0];
    assert SkipSpaces(a + t) == a + t;
    assert SkipSpaces(a) == a;
    if a[0] == '-' || a[0] == '+' {
      assert (a + t)[1..] == a[1..] + t;
      DigitRunStops(a[1..], t, 0);
    } else {
      DigitRunStops(a, t, 0);
    }
  }
}
