/** `GlyphData` (binpack2d_gorilla.hpp): the four numbers of one `glyph_`
    line of a font side-car file.  `ParseGlyph` is what a line yields,
    `GlyphData.ExtractFromLine` the loop that computes it in place. */
module Glyph {
  import opened Wrappers
  import opened Text

  datatype Glyph = Glyph(x: int, y: int, w: int, h: int)

  /** The position the k-th `find(" ", ...)` of the extraction loop lands
      on: the first space, then each next space after the previous one. */
  function NthSpace(line: string, k: nat): (r: Option<nat>)
    ensures r.Some? ==> r.value < |line| && line[r.value] == ' '
  {
    if k == 0 then FindChar(line, ' ', 0)
    else match NthSpace(line, k - 1)
      case None => None
      case Some(p) => FindChar(line, ' ', p + 1)
  }

  /** Field k: `atoi(line.substr(start, end))`, where `start` is the k-th
      space and `end` (used as a COUNT by `substr`) the next one. */
  function Field(line: string, k: nat): int
  {
    match NthSpace(line, k)
    case None => 0
    case Some(p) => Atoi(Substr(line, p, NthSpace(line, k + 1)))
  }

  /** What `extractFromLine` leaves in `values`, or `None` when it throws:
      it throws exactly when the fourth pass finds no space (an earlier
      miss makes every later pass miss too). */
  function ParseGlyph(line: string): Option<Glyph>
  {
    if NthSpace(line, 3).None? then None
    else Some(Glyph(Field(line, 0), Field(line, 1), Field(line, 2), Field(line, 3)))
  }

  /** The text of a glyph record as `key x y w h `, the form the rewriter emits. */
  function GlyphText(key: string, g: Glyph): string
  {
    key + " " + IntToString(g.x) + " " + IntToString(g.y) + " "
        + IntToString(g.w) + " " + IntToString(g.h) + " "
  }

  /** Once one `find` comes back `npos`, every later one does too. */
  lemma {:induction false} NthSpaceStaysNone(line: string, i: nat, j: nat)
    requires i <= j && NthSpace(line, i).None?
    ensures NthSpace(line, j).None?
  {
    if i < j {
      NthSpaceStaysNone(line, i, j - 1);
    }
  }

  function SpacesFrom(line: string, from: nat): nat
    requires from <= |line|
  {
    multiset(line[from..])[' ']
  }

  lemma {:induction false} FindCharCounts(line: string, from: nat)
    requires from <= |line|
    decreases |line| - from
    ensures FindChar(line, ' ', from).None? ==> SpacesFrom(line, from) == 0
    ensures FindChar(line, ' ', from).Some? ==>
      SpacesFrom(line, FindChar(line, ' ', from).value + 1) + 1 == SpacesFrom(line, from)
  {
    if from == |line| {
      assert line[from..] == [];
    } else {
      assert line[from..] == [line[from]] + line[from + 1..];
      if line[from] != ' ' {
        FindCharCounts(line, from + 1);
      }
    }
  }

  lemma {:induction false} NthSpaceCounts(line: string, k: nat)
    ensures NthSpace(line, k).None? ==> SpacesFrom(line, 0) <= k
    ensures NthSpace(line, k).Some? ==>
      SpacesFrom(line, NthSpace(line, k).value + 1) + k + 1 == SpacesFrom(line, 0)
  {
    if k == 0 {
      FindCharCounts(line, 0);
    } else {
      NthSpaceCounts(line, k - 1);
      match NthSpace(line, k - 1)
      case None =>
      case Some(p) =>
        assert NthSpace(line, k) == FindChar(line, ' ', p + 1);
        FindCharCounts(line, p + 1);
    }
  }

  /** `extractFromLine` throws exactly when the line holds fewer than four
      spaces, i.e. when one of its four `find(" ")` passes returns `npos`. */
  lemma {:induction false} ParseGlyphFailsIff(line: string)
    ensures ParseGlyph(line).None? <==> multiset(line)[' '] < 4
  {
    assert line[0..] == line;
    assert SpacesFrom(line, 0) == multiset(line)[' '];
    NthSpaceCounts(line, 3);
    assert NthSpace(line, 3).None? <==> SpacesFrom(line, 0) < 4;
  }

  /** One step of the `find` chain: when a space at `p` is followed by the
      token `a` and then by a space or the end of the line, the next space
      after `p` is the one that ends `a`, and the field read at `p` is
      `atoi(a)`. */
  lemma {:induction false} FieldAt(line: string, p: nat, a: string)
    requires IsToken(a)
    requires p + 1 + |a| <= |line|
    requires line[p] == ' ' && line[p + 1..p + 1 + |a|] == a
    requires p + 1 + |a| < |line| ==> line[p + 1 + |a|] == ' '
    ensures FindChar(line, ' ', p + 1) == (if p + 1 + |a| < |line| then Some(p + 1 + |a|) else None)
    ensures Atoi(Substr(line, p, FindChar(line, ' ', p + 1))) == Atoi(a)
  {
    NextSpaceAfterToken(line, p, a);
    ReadToken(line, p, a, FindChar(line, ' ', p + 1));
  }

  /** The space search from inside a token stops at the token's end. */
  lemma {:induction false} NextSpaceAfterToken(line: string, p: nat, a: string)
    requires IsToken(a)
    requires p + 1 + |a| <= |line|
    requires line[p + 1..p + 1 + |a|] == a
    requires p + 1 + |a| < |line| ==> line[p + 1 + |a|] == ' '
    ensures FindChar(line, ' ', p + 1) == (if p + 1 + |a| < |line| then Some(p + 1 + |a|) else None)
  {
    var q := p + 1 + |a|;
    assert forall k :: p + 1 <= k < q ==> line[k] == a[k - p - 1];
    FindCharIsFirst(line, ' ', p + 1);
  }

  /** `atoi(line.substr(p, next))` reads the token after the space at `p`,
      whether `next` (a count) reaches past the token or is `npos`. */
  lemma {:induction false} ReadToken(line: string, p: nat, a: string, next: Option<nat>)
    requires |a| > 0 && !IsSpace(a[0])
    requires p + 1 + |a| <= |line|
    requires line[p] == ' ' && line[p + 1..p + 1 + |a|] == a
    requires p + 1 + |a| < |line| ==> line[p + 1 + |a|] == ' '
    requires next == (if p + 1 + |a| < |line| then Some(p + 1 + |a|) else None)
    ensures Atoi(Substr(line, p, next)) == Atoi(a)
  {
    var q := p + 1 + |a|;
    var s := Substr(line, p, next);
    var e := p + |s|;
    assert s == line[p..e];
    assert q <= e;
    assert s == [' '] + a + line[q..e];
    AtoiOfField(a, line[q..e]);
  }

  /** `FieldAt` for a field that another space follows. */
  lemma {:induction false} FieldBetween(line: string, p: nat, q: nat, a: string)
    requires IsToken(a) && q == p + 1 + |a| && q < |line|
    requires line[p] == ' ' && line[p + 1..q] == a && line[q] == ' '
    ensures FindChar(line, ' ', p + 1) == Some(q)
    ensures Atoi(Substr(line, p, Some(q))) == Atoi(a)
  {
    assert line[p + 1..p + 1 + |a|] == a;
    FieldAt(line, p, a);
    assert FindChar(line, ' ', p + 1) == Some(q);
  }

  /** For a line `key a b c d` with single-space separators (and anything
      after `d` starting with a space), the four values are `atoi` of
      `a`, `b`, `c` and `d`, in that order. */
  lemma {:induction false} ParseGlyphOfFields(key: string, a: string, b: string, c: string, d: string, rest: string)
    requires ' ' !in key
    requires IsToken(a) && IsToken(b) && IsToken(c) && IsToken(d)
    requires rest == [] || rest[0] == ' '
    ensures ParseGlyph(key + " " + a + " " + b + " " + c + " " + d + rest)
         == Some(Glyph(Atoi(a), Atoi(b), Atoi(c), Atoi(d)))
  {
    var line := key + " " + a + " " + b + " " + c + " " + d + rest;
    var p0 := |key|;
    var p1 := p0 + 1 + |a|;
    var p2 := p1 + 1 + |b|;
    var p3 := p2 + 1 + |c|;
    var p4 := p3 + 1 + |d|;
    assert forall k :: 0 <= k < p0 ==> line[k] == key[k];
    assert line[p0] == ' ' && line[p1] == ' ' && line[p2] == ' ' && line[p3] == ' ';
    assert line[p0 + 1..p1] == a;
    assert line[p1 + 1..p2] == b;
    assert line[p2 + 1..p3] == c;
    assert line[p3 + 1..p4] == d;
    assert line[p4..] == rest;
    ParseGlyphOfLayout(line, p0, p1, p2, p3, a, b, c, d);
  }

  /** The same, for a line given by where its first four spaces `p0` to
      `p3` lie and which tokens they introduce. */
  lemma {:induction false} ParseGlyphOfLayout(line: string, p0: nat, p1: nat, p2: nat, p3: nat,
                                              a: string, b: string, c: string, d: string)
    requires IsToken(a) && IsToken(b) && IsToken(c) && IsToken(d)
    requires p1 == p0 + 1 + |a| && p2 == p1 + 1 + |b| && p3 == p2 + 1 + |c|
    requires p3 + 1 + |d| <= |line|
    requires forall k :: 0 <= k < p0 ==> line[k] != ' '
    requires line[p0] == ' ' && line[p1] == ' ' && line[p2] == ' ' && line[p3] == ' '
    requires line[p0 + 1..p1] == a && line[p1 + 1..p2] == b && line[p2 + 1..p3] == c
    requires line[p3 + 1..p3 + 1 + |d|] == d
    requires p3 + 1 + |d| < |line| ==> line[p3 + 1 + |d|] == ' '
    ensures ParseGlyph(line) == Some(Glyph(Atoi(a), Atoi(b), Atoi(c), Atoi(d)))
  {
    FindCharIsFirst(line, ' ', 0);
    assert FindChar(line, ' ', 0) == Some(p0);
    FieldBetween(line, p0, p1, a);
    FieldBetween(line, p1, p2, b);
    FieldBetween(line, p2, p3, c);
    FieldAt(line, p3, d);
    ParseGlyphOfSpaces(line, p0, p1, p2, p3);
  }

  /** When the first four `find` passes land on `p0` to `p3`, the values
      are the four fields these positions delimit. */
  lemma {:induction false} ParseGlyphOfSpaces(line: string, p0: nat, p1: nat, p2: nat, p3: nat)
    requires FindChar(line, ' ', 0) == Some(p0)
    requires FindChar(line, ' ', p0 + 1) == Some(p1)
    requires FindChar(line, ' ', p1 + 1) == Some(p2)
    requires FindChar(line, ' ', p2 + 1) == Some(p3)
    ensures ParseGlyph(line) == Some(Glyph(
      Atoi(Substr(line, p0, Some(p1))), Atoi(Substr(line, p1, Some(p2))),
      Atoi(Substr(line, p2, Some(p3))), Atoi(Substr(line, p3, FindChar(line, ' ', p3 + 1)))))
  {
    assert NthSpace(line, 0) == Some(p0);
    assert NthSpace(line, 1) == Some(p1);
    assert NthSpace(line, 2) == Some(p2);
    assert NthSpace(line, 3) == Some(p3);
    assert NthSpace(line, 4) == FindChar(line, ' ', p3 + 1);
  }

  /** Re-reading a rewritten glyph record gives back the same four numbers. */
  lemma {:induction false} GlyphTextRoundTrip(key: string, g: Glyph)
    requires ' ' !in key
    ensures ParseGlyph(GlyphText(key, g)) == Some(g)
  {
    AtoiOfIntToString(g.x);
    AtoiOfIntToString(g.y);
    AtoiOfIntToString(g.w);
    AtoiOfIntToString(g.h);
    ParseGlyphOfFields(key, IntToString(g.x), IntToString(g.y), IntToString(g.w), IntToString(g.h), " ");
  }

  /** Searching again from a space the chain has reached finds that same
      space, and the next pass starts just after it. */
  lemma {:induction false} NthSpaceStep(line: string, i: nat)
    requires NthSpace(line, i).Some?
    ensures FindChar(line, ' ', NthSpace(line, i).value) == NthSpace(line, i)
    ensures NthSpace(line, i + 1) == FindChar(line, ' ', NthSpace(line, i).value + 1)
  {
  }

  /** Where the `i`-th pass of the extraction loop starts searching:
      index 0 on the first pass, then the space the previous pass found. */
  ghost predicate SearchFrom(line: string, i: nat, endPos: Option<nat>) {
    if i == 0 then endPos == Some(0) else NthSpace(line, i - 1).Some? && endPos == NthSpace(line, i)
  }

  /** One pass of the extraction loop: it finds the `i`-th space, then the
      next one, and reads field `i` between them. */
  lemma {:induction false} ExtractStep(line: string, i: nat, startPos: Option<nat>, endPos: Option<nat>)
    requires SearchFrom(line, i, if i == 0 then Some(0) else NthSpace(line, i))
    requires startPos == (if i == 0 then FindChar(line, ' ', 0)
                          else if NthSpace(line, i).None? then None
                          else FindChar(line, ' ', NthSpace(line, i).value))
    requires endPos == FindChar(line, ' ', if startPos.None? then 0 else startPos.value + 1)
    ensures startPos == NthSpace(line, i)
    ensures startPos.Some? ==> SearchFrom(line, i + 1, endPos) && Field(line, i) == Atoi(Substr(line, startPos.value, endPos))
  {
    if i > 0 && NthSpace(line, i).Some? {
      NthSpaceStep(line, i);
    }
  }

  /** The `GlyphData` object: a four-slot `values` array, overwritten by
      each `extractFromLine` call and read through `x()`, `y()`, `w()`, `h()`. */
  class GlyphData {
    const values: array<int>

    ghost predicate Valid()
      reads this
    {
      values.Length == 4
    }

    constructor ()
      ensures Valid() && fresh(values)
    {
      values := new int[4];
    }

    /** The record `x()`, `y()`, `w()`, `h()` currently report. */
    function Current(): Glyph
      reads this, values
      requires Valid()
    {
      Glyph(values[0], values[1], values[2], values[3])
    }

    /** `extractFromLine`: four passes of `find(" ")`, each storing
        `atoi(line.substr(startPos, endPos))`; `false` stands for the
        `runtime_error` thrown when a pass finds no space. */
    method ExtractFromLine(line: string) returns (ok: bool)
      requires Valid()
      modifies values
      ensures Valid()
      ensures ok <==> ParseGlyph(line).Some?
      ensures ok ==> Current() == ParseGlyph(line).value
    {
      var startPos: Option<nat> := None;
      var endPos: Option<nat> := Some(0);
      var i := 0;
      while i < 4
        invariant 0 <= i <= 4
        invariant SearchFrom(line, i, endPos)
        invariant forall j :: 0 <= j < i ==> values[j] == Field(line, j)
      {
        startPos := if endPos.None? then None else FindChar(line, ' ', endPos.value);
        // `startPos + 1` wraps round to 0 when `startPos` is `npos`.
        endPos := FindChar(line, ' ', if startPos.None? then 0 else startPos.value + 1);
        ExtractStep(line, i, startPos, endPos);
        if startPos.None? {
          NthSpaceStaysNone(line, i, 3);
          return false;
        }
        values[i] := Atoi(Substr(line, startPos.value, endPos));
        i := i + 1;
      }
      return true;
    }
  }
}
