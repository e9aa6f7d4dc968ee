/** `GorillaFontParser` (binpack2d_gorilla.hpp): reads the `.gorilla`
    side-car of a bitmap font, measures the glyphs it lists, and re-emits
    the font's block of the atlas descriptor.  The side-car file is given
    as its sequence of lines; every pass over it (`resetSeek` followed by
    a `getline` loop) is a loop over that sequence from the start. */
module FontParser {
  import opened Wrappers
  import opened Text
  import opened Glyph

  /** The attributes `appendGorilla` copies, in the order it copies them. */
  const FontTag: string := "[Font."
  const LineHeightTag: string := "lineheight "
  const SpaceLengthTag: string := "spacelength "
  const BaselineTag: string := "baseline "
  const KerningTag: string := "kerning "
  const LetterSpacingTag: string := "letterspacing "
  const MonoWidthTag: string := "monowidth "
  const RangeTag: string := "range "

  predicate IsGlyphLine(line: string) {
    Contains(line, "glyph_")
  }

  predicate IsVerticalOffsetLine(line: string) {
    Contains(line, "verticaloffset_")
  }

  /** Conversion of an `int` to `unsigned`: reduction modulo 2^32. */
  function U32(v: int): (r: nat)
    ensures r < 0x1_0000_0000
    ensures 0 <= v < 0x1_0000_0000 ==> r == v
  {
    v % 0x1_0000_0000
  }

  function Max(a: nat, b: nat): nat {
    if a < b then b else a
  }

  /** Width and height of a font's glyph area. */
  datatype Extent = Extent(width: nat, height: nat)

  /** The right and bottom edges of a glyph, as `unsigned` values. */
  function Right(g: Glyph): nat { U32(g.x + g.w) }
  function Bottom(g: Glyph): nat { U32(g.y + g.h) }

  /** Every `glyph_` line holds its four fields. */
  ghost predicate GlyphsParse(lines: seq<string>) {
    forall i :: 0 <= i < |lines| && IsGlyphLine(lines[i]) ==> ParseGlyph(lines[i]).Some?
  }

  /** One step of `parseDimension`. */
  function Measure(d: Extent, line: string): Result<Extent>
  {
    if !IsGlyphLine(line) then Ok(d)
    else match ParseGlyph(line)
      case None => Err(GlyphDataError)
      case Some(g) => Ok(Extent(Max(d.width, Right(g)), Max(d.height, Bottom(g))))
  }

  /** What `parseDimension` leaves in `mWidth`/`mHeight` after reading
      `lines`, or the error it throws. */
  function Dimensions(lines: seq<string>): Result<Extent>
    decreases |lines|
  {
    if |lines| == 0 then Ok(Extent(0, 0))
    else match Dimensions(lines[..|lines| - 1])
      case Err(e) => Err(e)
      case Ok(d) => Measure(d, lines[|lines| - 1])
  }

  /** The `glyph_` lines of a file, in file order. */
  function GlyphLines(lines: seq<string>): seq<string>
    decreases |lines|
  {
    if |lines| == 0 then []
    else GlyphLines(lines[..|lines| - 1]) + (if IsGlyphLine(lines[|lines| - 1]) then [lines[|lines| - 1]] else [])
  }

  /** The first line at or after `from` that contains `info`. */
  function FirstFrom(lines: seq<string>, info: string, from: nat): (r: Option<nat>)
    decreases |lines| - from
    ensures r.Some? ==> from <= r.value < |lines| && Contains(lines[r.value], info)
  {
    if from >= |lines| then None
    else if Contains(lines[from], info) then Some(from)
    else FirstFrom(lines, info, from + 1)
  }

  /** `FirstFrom` finds the FIRST match, and `None` means there is none. */
  lemma {:induction false} FirstFromIsFirst(lines: seq<string>, info: string, from: nat)
    decreases |lines| - from
    ensures FirstFrom(lines, info, from).Some? ==>
      forall j :: from <= j < FirstFrom(lines, info, from).value ==> !Contains(lines[j], info)
    ensures FirstFrom(lines, info, from).None? ==>
      forall j :: from <= j < |lines| ==> !Contains(lines[j], info)
  {
    if from < |lines| && !Contains(lines[from], info) {
      FirstFromIsFirst(lines, info, from + 1);
    }
  }

  /** What `appendInfo(info)` writes: the first line holding `info`, if any. */
  function InfoLine(lines: seq<string>, info: string): seq<string>
  {
    match FirstFrom(lines, info, 0)
    case None => []
    case Some(i) => [lines[i]]
  }

  /** The attribute lines, one `appendInfo` per attribute in turn. */
  function InfoBlock(lines: seq<string>): (r: seq<string>)
    ensures |r| <= 8
  {
    InfoLine(lines, FontTag) + InfoLine(lines, LineHeightTag) + InfoLine(lines, SpaceLengthTag)
      + InfoLine(lines, BaselineTag) + InfoLine(lines, KerningTag) + InfoLine(lines, LetterSpacingTag)
      + InfoLine(lines, MonoWidthTag) + InfoLine(lines, RangeTag)
  }

  /** The `offset` line of a font block: where the font landed in the atlas. */
  function OffsetLine(x: nat, y: nat): string
  {
    "offset " + NatToString(x) + " " + NatToString(y)
  }

  /** `line.substr(0, line.find(" "))`: the glyph's name. */
  function GlyphKey(line: string): (r: string)
    ensures r <= line
    ensures ' ' !in r
    ensures |r| == |line| || line[|r|] == ' '
  {
    FindCharIsFirst(line, ' ', 0);
    Substr(line, 0, FindChar(line, ' ', 0))
  }

  /** What the glyph loop of `appendGorilla` writes for one line. */
  function RewriteLine(line: string): Result<seq<string>>
  {
    if IsGlyphLine(line) then
      match ParseGlyph(line)
      case None => Err(GlyphDataError)
      case Some(g) => Ok([GlyphText(GlyphKey(line), g)])
    else if IsVerticalOffsetLine(line) then Ok([line])
    else Ok([])
  }

  /** The glyph and vertical-offset part of a font block. */
  function RewriteBody(lines: seq<string>): Result<seq<string>>
    decreases |lines|
  {
    if |lines| == 0 then Ok([])
    else match RewriteBody(lines[..|lines| - 1])
      case Err(e) => Err(e)
      case Ok(body) =>
        match RewriteLine(lines[|lines| - 1])
        case Err(e) => Err(e)
        case Ok(t) => Ok(body + t)
  }

  /** The lines `appendGorilla` carries over: glyphs and vertical offsets. */
  function Kept(lines: seq<string>): seq<string>
    decreases |lines|
  {
    if |lines| == 0 then []
    else
      var l := lines[|lines| - 1];
      Kept(lines[..|lines| - 1]) + (if IsGlyphLine(l) || IsVerticalOffsetLine(l) then [l] else [])
  }

  /** The whole font block `appendGorilla(x, y)` writes. */
  function FontBlock(lines: seq<string>, x: nat, y: nat): Result<seq<string>>
  {
    match RewriteBody(lines)
    case Err(e) => Err(e)
    case Ok(body) => Ok(InfoBlock(lines) + [OffsetLine(x, y)] + body)
  }

  // ---------------------------------------------------------------------
  // Properties of the measurement.

  /** `parseDimension` throws exactly when some `glyph_` line is malformed. */
  lemma {:induction false} DimensionsOkIff(lines: seq<string>)
    decreases |lines|
    ensures Dimensions(lines).Ok? <==> GlyphsParse(lines)
  {
    if |lines| > 0 {
      var init := lines[..|lines| - 1];
      DimensionsOkIff(init);
      assert forall i :: 0 <= i < |init| ==> init[i] == lines[i];
      if GlyphsParse(lines) {
        assert GlyphsParse(init);
      }
    }
  }

  /** The measured extent covers every glyph. */
  lemma {:induction false} DimensionsBound(lines: seq<string>)
    decreases |lines|
    requires Dimensions(lines).Ok?
    ensures forall i :: 0 <= i < |lines| && IsGlyphLine(lines[i]) ==>
      ParseGlyph(lines[i]).Some? &&
      Right(ParseGlyph(lines[i]).value) <= Dimensions(lines).value.width &&
      Bottom(ParseGlyph(lines[i]).value) <= Dimensions(lines).value.height
  {
    if |lines| > 0 {
      var init := lines[..|lines| - 1];
      var e := Dimensions(lines).value;
      DimensionsBound(init);
      var d := Dimensions(init).value;
      assert d.width <= e.width && d.height <= e.height;
      forall i | 0 <= i < |lines| && IsGlyphLine(lines[i])
        ensures ParseGlyph(lines[i]).Some? && Right(ParseGlyph(lines[i]).value) <= e.width
          && Bottom(ParseGlyph(lines[i]).value) <= e.height
      {
        if i < |init| {
          assert lines[i] == init[i];
        }
      }
    }
  }

  /** Line `i` is a well-formed glyph whose right edge is `v`. */
  ghost predicate RightEdgeAt(lines: seq<string>, i: int, v: nat) {
    0 <= i < |lines| && IsGlyphLine(lines[i]) && ParseGlyph(lines[i]).Some? && Right(ParseGlyph(lines[i]).value) == v
  }

  /** Line `i` is a well-formed glyph whose bottom edge is `v`. */
  ghost predicate BottomEdgeAt(lines: seq<string>, i: int, v: nat) {
    0 <= i < |lines| && IsGlyphLine(lines[i]) && ParseGlyph(lines[i]).Some? && Bottom(ParseGlyph(lines[i]).value) == v
  }

  /** The measured extent is tight: each side is 0 or reached by a glyph. */
  lemma {:induction false} DimensionsAttained(lines: seq<string>)
    decreases |lines|
    requires Dimensions(lines).Ok?
    ensures Dimensions(lines).value.width == 0 || exists i :: RightEdgeAt(lines, i, Dimensions(lines).value.width)
    ensures Dimensions(lines).value.height == 0 || exists i :: BottomEdgeAt(lines, i, Dimensions(lines).value.height)
  {
    if |lines| > 0 {
      var init := lines[..|lines| - 1];
      var last := |lines| - 1;
      DimensionsAttained(init);
      var d := Dimensions(init).value;
      var e := Dimensions(lines).value;
      if e.width != d.width {
        assert RightEdgeAt(lines, last, e.width);
      } else if e.width != 0 {
        var i :| RightEdgeAt(init, i, d.width);
        assert lines[i] == init[i];
        assert RightEdgeAt(lines, i, e.width);
      }
      if e.height != d.height {
        assert BottomEdgeAt(lines, last, e.height);
      } else if e.height != 0 {
        var i :| BottomEdgeAt(init, i, d.height);
        assert lines[i] == init[i];
        assert BottomEdgeAt(lines, i, e.height);
      }
    }
  }

  /** Only `glyph_` lines matter: measuring them alone gives the same answer. */
  lemma {:induction false} DimensionsOfGlyphLines(lines: seq<string>)
    decreases |lines|
    ensures Dimensions(GlyphLines(lines)) == Dimensions(lines)
  {
    if |lines| > 0 {
      var init := lines[..|lines| - 1];
      var l := lines[|lines| - 1];
      DimensionsOfGlyphLines(init);
      if IsGlyphLine(l) {
        var g := GlyphLines(init) + [l];
        assert GlyphLines(lines) == g;
        assert g[..|g| - 1] == GlyphLines(init);
        assert g[|g| - 1] == l;
      } else {
        assert GlyphLines(lines) == GlyphLines(init);
      }
    }
  }

  /** A file without `glyph_` lines measures 0 by 0. */
  lemma {:induction false} DimensionsWithoutGlyphs(lines: seq<string>)
    decreases |lines|
    requires forall i :: 0 <= i < |lines| ==> !IsGlyphLine(lines[i])
    ensures Dimensions(lines) == Ok(Extent(0, 0))
  {
    if |lines| > 0 {
      var init := lines[..|lines| - 1];
      assert forall i :: 0 <= i < |init| ==> init[i] == lines[i];
      DimensionsWithoutGlyphs(init);
    }
  }

  /** Once a prefix fails to measure, so does the whole file. */
  lemma {:induction false} DimensionsErrExtends(lines: seq<string>, n: nat)
    decreases |lines| - n
    requires n <= |lines| && Dimensions(lines[..n]).Err?
    ensures Dimensions(lines) == Dimensions(lines[..n])
  {
    if n < |lines| {
      assert lines[..n + 1][..n] == lines[..n];
      DimensionsErrExtends(lines, n + 1);
    } else {
      assert lines[..n] == lines;
    }
  }

  // ---------------------------------------------------------------------
  // Properties of the emitted block.

  /** Re-emission fails exactly when measurement does, so a font that
      loaded is always written out in full. */
  lemma {:induction false} RewriteBodyOkIff(lines: seq<string>)
    decreases |lines|
    ensures RewriteBody(lines).Ok? <==> Dimensions(lines).Ok?
  {
    if |lines| > 0 {
      RewriteBodyOkIff(lines[..|lines| - 1]);
    }
  }

  /** One glyph line is rewritten as its own name followed by the same four
      numbers; a vertical-offset line is copied verbatim. */
  lemma {:induction false} RewriteLineFaithful(line: string)
    requires RewriteLine(line).Ok? && (IsGlyphLine(line) || IsVerticalOffsetLine(line))
    ensures |RewriteLine(line).value| == 1
    ensures IsGlyphLine(line) ==>
      ParseGlyph(RewriteLine(line).value[0]) == ParseGlyph(line) &&
      GlyphKey(RewriteLine(line).value[0]) == GlyphKey(line)
    ensures !IsGlyphLine(line) ==> RewriteLine(line).value[0] == line
  {
    if IsGlyphLine(line) {
      var key := GlyphKey(line);
      var g := ParseGlyph(line).value;
      GlyphTextRoundTrip(key, g);
      GlyphTextKey(key, g);
    }
  }

  /** The name of a rewritten glyph line is the name it was written with. */
  lemma {:induction false} GlyphTextKey(key: string, g: Glyph)
    requires ' ' !in key
    ensures GlyphKey(GlyphText(key, g)) == key
  {
    var t := GlyphText(key, g);
    assert t[|key|] == ' ';
    assert forall k :: 0 <= k < |key| ==> t[k] == key[k];
    FindCharIsFirst(t, ' ', 0);
    assert FindChar(t, ' ', 0) == Some(|key|);
  }

  /** The body of a font block has one line per kept line of the file, in
      file order, each rewritten faithfully. */
  lemma {:induction false} RewriteBodyLines(lines: seq<string>)
    decreases |lines|
    requires RewriteBody(lines).Ok?
    ensures |RewriteBody(lines).value| == |Kept(lines)|
    ensures forall k :: 0 <= k < |Kept(lines)| ==>
      (IsGlyphLine(Kept(lines)[k]) ==>
        ParseGlyph(RewriteBody(lines).value[k]) == ParseGlyph(Kept(lines)[k]) &&
        GlyphKey(RewriteBody(lines).value[k]) == GlyphKey(Kept(lines)[k])) &&
      (!IsGlyphLine(Kept(lines)[k]) ==> RewriteBody(lines).value[k] == Kept(lines)[k])
  {
    if |lines| > 0 {
      var init := lines[..|lines| - 1];
      var l := lines[|lines| - 1];
      RewriteBodyLines(init);
      if IsGlyphLine(l) || IsVerticalOffsetLine(l) {
        RewriteLineFaithful(l);
      }
    }
  }

  /** The placement only shows in the `offset` line: two blocks of the same
      font agree everywhere else, glyph coordinates included. */
  lemma {:induction false} FontBlockOffsetOnly(lines: seq<string>, x1: nat, y1: nat, x2: nat, y2: nat)
    requires FontBlock(lines, x1, y1).Ok?
    ensures FontBlock(lines, x2, y2).Ok?
    ensures |FontBlock(lines, x1, y1).value| == |FontBlock(lines, x2, y2).value|
    ensures forall k :: 0 <= k < |FontBlock(lines, x1, y1).value| && k != |InfoBlock(lines)| ==>
      FontBlock(lines, x1, y1).value[k] == FontBlock(lines, x2, y2).value[k]
    ensures FontBlock(lines, x2, y2).value[|InfoBlock(lines)|] == OffsetLine(x2, y2)
  {
  }

  /** `appendInfo` writes at most one line: the first one holding `info`,
      verbatim, or nothing when no line holds it. */
  lemma {:induction false} InfoLineIsFirst(lines: seq<string>, info: string)
    ensures |InfoLine(lines, info)| <= 1
    ensures InfoLine(lines, info) == [] <==> forall j :: 0 <= j < |lines| ==> !Contains(lines[j], info)
    ensures InfoLine(lines, info) != [] ==> exists j :: FirstHolding(lines, info, j) && InfoLine(lines, info) == [lines[j]]
  {
    FirstFromIsFirst(lines, info, 0);
    if FirstFrom(lines, info, 0).Some? {
      assert FirstHolding(lines, info, FirstFrom(lines, info, 0).value);
    }
  }

  /** Line `j` is the first line that holds `info`. */
  ghost predicate FirstHolding(lines: seq<string>, info: string, j: int) {
    0 <= j < |lines| && Contains(lines[j], info) && forall k :: 0 <= k < j ==> !Contains(lines[k], info)
  }

  /** The measuring step for a well-formed glyph line. */
  lemma {:induction false} MeasureGlyph(d: Extent, line: string, g: Glyph)
    requires IsGlyphLine(line) && ParseGlyph(line) == Some(g)
    ensures Measure(d, line) == Ok(Extent(Max(d.width, Right(g)), Max(d.height, Bottom(g))))
  {
  }

  /** The rewriting step for a well-formed glyph line. */
  lemma {:induction false} RewriteGlyph(line: string, g: Glyph)
    requires IsGlyphLine(line) && ParseGlyph(line) == Some(g)
    ensures RewriteLine(line) == Ok([GlyphText(GlyphKey(line), g)])
  {
  }

  /** One more line read by `parseDimension`. */
  lemma {:induction false} DimensionsStep(lines: seq<string>, i: nat)
    requires i < |lines| && Dimensions(lines[..i]).Ok?
    ensures Dimensions(lines[..i + 1]) == Measure(Dimensions(lines[..i]).value, lines[i])
  {
    assert lines[..i + 1][..i] == lines[..i];
  }

  /** One more line read by the glyph loop of `appendGorilla`. */
  lemma {:induction false} RewriteBodyStep(lines: seq<string>, i: nat, t: seq<string>)
    requires i < |lines| && RewriteBody(lines[..i]).Ok? && RewriteLine(lines[i]) == Ok(t)
    ensures RewriteBody(lines[..i + 1]) == Ok(RewriteBody(lines[..i]).value + t)
  {
    assert lines[..i + 1][..i] == lines[..i];
  }

  /** A malformed glyph line stops the glyph loop of `appendGorilla`. */
  lemma {:induction false} RewriteBodyStepErr(lines: seq<string>, i: nat)
    requires i < |lines| && RewriteBody(lines[..i]).Ok? && RewriteLine(lines[i]).Err?
    ensures RewriteBody(lines[..i + 1]) == RewriteLine(lines[i])
  {
    assert lines[..i + 1][..i] == lines[..i];
  }

  // ---------------------------------------------------------------------
  // The parser object.

  class GorillaFontParser {
    /** The side-car file, line by line. */
    const lines: seq<string>
    var width: nat
    var height: nat

    /** A parser over an opened side-car, before `parseDimension`. */
    constructor (lines: seq<string>)
      ensures this.lines == lines && width == 0 && height == 0
    {
      this.lines := lines;
      width, height := 0, 0;
    }

    /** `parseDimension`: `width`/`height` become the largest right and
        bottom edges of the glyphs; `false` stands for the error thrown
        by a malformed `glyph_` line. */
    method ParseDimension() returns (ok: bool)
      modifies this
      ensures ok <==> Dimensions(lines).Ok?
      ensures ok ==> Dimensions(lines) == Ok(Extent(width, height))
    {
      width, height := 0, 0;
      var glyphs := new GlyphData();
      var i := 0;
      while i < |lines|
        invariant 0 <= i <= |lines|
        invariant glyphs.Valid() && fresh(glyphs.values)
        invariant Dimensions(lines[..i]) == Ok(Extent(width, height))
      {
        var line := lines[i];
        DimensionsStep(lines, i);
        ghost var before := Extent(width, height);
        if IsGlyphLine(line) {
          var parsed := glyphs.ExtractFromLine(line);
          if !parsed {
            DimensionsErrExtends(lines, i + 1);
            return false;
          }
          var g := glyphs.Current();
          MeasureGlyph(before, line, g);
          var w := U32(g.x + g.w);
          if w > width {
            width := w;
          }
          var h := U32(g.y + g.h);
          if h > height {
            height := h;
          }
        }
        assert Measure(before, line) == Ok(Extent(width, height));
        i := i + 1;
      }
      assert lines[..i] == lines;
      return true;
    }

    /** `appendInfo(info)`: the first line holding `info`, or nothing. */
    method AppendInfo(info: string) returns (out: seq<string>)
      ensures out == InfoLine(lines, info)
    {
      out := [];
      var i := 0;
      while i < |lines|
        invariant 0 <= i <= |lines|
        invariant FirstFrom(lines, info, i) == FirstFrom(lines, info, 0)
      {
        if Contains(lines[i], info) {
          out := [lines[i]];
          return;
        }
        i := i + 1;
      }
    }

    /** `appendGorilla(xOffset, yOffset)`: the font's block of the atlas
        descriptor; an error if a `glyph_` line is malformed. */
    method AppendGorilla(x: nat, y: nat) returns (r: Result<seq<string>>)
      ensures r == FontBlock(lines, x, y)
    {
      var font := AppendInfo(FontTag);
      var lineHeight := AppendInfo(LineHeightTag);
      var spaceLength := AppendInfo(SpaceLengthTag);
      var baseline := AppendInfo(BaselineTag);
      var kerning := AppendInfo(KerningTag);
      var letterSpacing := AppendInfo(LetterSpacingTag);
      var monoWidth := AppendInfo(MonoWidthTag);
      var range := AppendInfo(RangeTag);
      var head := font + lineHeight + spaceLength + baseline + kerning + letterSpacing + monoWidth + range;
      head := head + [OffsetLine(x, y)];
      var body := AppendGlyphs();
      if body.Err? {
        return Err(body.error);
      }
      return Ok(head + body.value);
    }

    /** The second pass of `appendGorilla` over the file: each `glyph_`
        line rewritten from its parsed numbers, each `verticaloffset_` line
        copied. */
    method AppendGlyphs() returns (r: Result<seq<string>>)
      ensures r == RewriteBody(lines)
    {
      var out: seq<string> := [];
      var glyphs := new GlyphData();
      var i := 0;
      while i < |lines|
        invariant 0 <= i <= |lines|
        invariant glyphs.Valid() && fresh(glyphs.values)
        invariant RewriteBody(lines[..i]) == Ok(out)
      {
        var line := lines[i];
        var emitted: seq<string> := [];
        if IsGlyphLine(line) {
          var parsed := glyphs.ExtractFromLine(line);
          if !parsed {
            RewriteBodyStepErr(lines, i);
            RewriteBodyErrExtends(lines, i + 1);
            return Err(GlyphDataError);
          }
          RewriteGlyph(line, glyphs.Current());
          emitted := [GlyphText(GlyphKey(line), glyphs.Current())];
        } else if IsVerticalOffsetLine(line) {
          emitted := [line];
        }
        RewriteBodyStep(lines, i, emitted);
        out := out + emitted;
        i := i + 1;
      }
      assert lines[..i] == lines;
      return Ok(out);
    }
  }

  /** Once a prefix fails to re-emit, so does the whole file. */
  lemma {:induction false} RewriteBodyErrExtends(lines: seq<string>, n: nat)
    decreases |lines| - n
    requires n <= |lines| && RewriteBody(lines[..n]).Err?
    ensures RewriteBody(lines) == RewriteBody(lines[..n])
  {
    if n < |lines| {
      assert lines[..n + 1][..n] == lines[..n];
      RewriteBodyErrExtends(lines, n + 1);
    } else {
      assert lines[..n] == lines;
    }
  }

  /** Opening a side-car: a parser whose `width`/`height` hold the measured
      extent, or the error `parseDimension` throws. */
  method Open(lines: seq<string>) returns (r: Result<GorillaFontParser>)
    ensures r.Err? <==> Dimensions(lines).Err?
    ensures r.Ok? ==>
      fresh(r.value) && r.value.lines == lines && Dimensions(lines) == Ok(Extent(r.value.width, r.value.height))
  {
    var parser := new GorillaFontParser(lines);
    var ok := parser.ParseDimension();
    if !ok {
      return Err(GlyphDataError);
    }
    return Ok(parser);
  }
}
