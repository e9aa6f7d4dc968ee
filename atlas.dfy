/** The atlas descriptor that `packImages` (gorilla_binpacker.cpp) writes
    next to the atlas image: a `[Texture]` header with the white-pixel
    centre, one block per font (`appendGorillaFonts`) and one line per
    sprite (`appendGorillaSprites`), over the items the packer placed.
    The packer itself is not modelled: its result for one bin size is an
    input. */
module Atlas {
  import opened Wrappers
  import opened Text
  import opened Glyph
  import opened FileNames
  import opened FontParser
  import opened Contents

  /** An item where the packer put it: its top-left corner and its size. */
  datatype Placed = Placed(content: Content, x: nat, y: nat, w: nat, h: nat)

  /** What the packer reports for one bin: the items it placed, and those
      that did not fit. */
  datatype Packing = Packing(placed: seq<Placed>, remainder: seq<Content>)

  /** A descriptor file: its path and its lines. */
  datatype Gorilla = Gorilla(path: string, lines: seq<string>)

  /** `packImages` returns 1 when something did not fit, and 0 once the
      atlas and its descriptor are written. */
  datatype Outcome = NotPlaced | Written(descriptor: Gorilla)

  /** The fixed lines and prefixes of the descriptor. */
  const TextureTag: string := "[Texture]"
  const FileTag: string := "file "
  const WhitePixelTag: string := "whitepixel "
  const SpritesTag: string := "[Sprites]"
  const BlankLine: string := ""

  /** The three passes over the placed items. */
  datatype Section = FontSection | SpriteSection | WhitePixelSection

  /** The test each pass applies to a placed item. */
  predicate InSection(p: Placed, s: Section) {
    match s
    case FontSection => p.content.kind.Font?
    case SpriteSection => !p.content.kind.Font? && p.content.name != WhitePixelName
    case WhitePixelSection => p.content.name == WhitePixelName
  }

  /** The placed items a pass writes out, in placement order. */
  function Select(placed: seq<Placed>, s: Section): seq<Placed>
  {
    if |placed| == 0 then []
    else
      var p := placed[|placed| - 1];
      Select(placed[..|placed| - 1], s) + (if InSection(p, s) then [p] else [])
  }

  /** Selecting from a concatenation selects from each part, in order. */
  lemma {:induction false} SelectAppend(a: seq<Placed>, b: seq<Placed>, s: Section)
    decreases |b|
    ensures Select(a + b, s) == Select(a, s) + Select(b, s)
  {
    if |b| == 0 {
      assert a + b == a;
    } else {
      var b' := b[..|b| - 1];
      assert (a + b)[..|a + b| - 1] == a + b';
      SelectAppend(a, b', s);
    }
  }

  /** Every loaded item belongs to exactly one of the three passes. */
  lemma {:induction false} SectionsPartition(p: Placed)
    requires Loaded(p.content)
    ensures InSection(p, FontSection) || InSection(p, SpriteSection) || InSection(p, WhitePixelSection)
    ensures !(InSection(p, FontSection) && InSection(p, SpriteSection))
    ensures !(InSection(p, FontSection) && InSection(p, WhitePixelSection))
    ensures !(InSection(p, SpriteSection) && InSection(p, WhitePixelSection))
  {
  }

  /** The three passes together write as many lines as there are placed
      items: with `SelectMembers`, every placed item exactly once. */
  lemma {:induction false} SelectPartition(placed: seq<Placed>)
    requires forall i :: 0 <= i < |placed| ==> Loaded(placed[i].content)
    ensures |Select(placed, FontSection)| + |Select(placed, SpriteSection)|
      + |Select(placed, WhitePixelSection)| == |placed|
  {
    if |placed| > 0 {
      var init := placed[..|placed| - 1];
      var p := placed[|placed| - 1];
      assert forall i :: 0 <= i < |init| ==> init[i] == placed[i];
      SelectPartition(init);
      assert Loaded(p.content);
      SectionsPartition(p);
    }
  }

  /** A pass writes exactly the placed items that pass its test. */
  lemma {:induction false} SelectMembers(placed: seq<Placed>, s: Section)
    ensures forall p :: p in Select(placed, s) <==> p in placed && InSection(p, s)
  {
    if |placed| > 0 {
      var init := placed[..|placed| - 1];
      SelectMembers(init, s);
      assert placed == init + [placed[|placed| - 1]];
    }
  }

  // ---------------------------------------------------------------------
  // The white pixel.

  /** The first placed item, at or after `from`, named like the white pixel. */
  function FindWhitePixel(placed: seq<Placed>, from: nat): (r: Option<nat>)
    decreases |placed| - from
    ensures r.Some? ==> from <= r.value < |placed| && InSection(placed[r.value], WhitePixelSection)
    ensures r.Some? ==> forall j :: from <= j < r.value ==> !InSection(placed[j], WhitePixelSection)
    ensures r.None? ==> forall j :: from <= j < |placed| ==> !InSection(placed[j], WhitePixelSection)
  {
    if from >= |placed| then None
    else if InSection(placed[from], WhitePixelSection) then Some(from)
    else FindWhitePixel(placed, from + 1)
  }

  /** The `whitepixel` line: the centre of the item, by integer division. */
  function WhitePixelLine(p: Placed): string
  {
    WhitePixelTag + NatToString(p.x + p.w / 2) + " " + NatToString(p.y + p.h / 2)
  }

  /** For the 3x3 white pixel the centre is one pixel in from the corner. */
  lemma {:induction false} WhitePixelCentre(x: nat, y: nat)
    ensures WhitePixelLine(Placed(WhitePixelContent, x, y, WhitePixelSize, WhitePixelSize))
      == WhitePixelTag + NatToString(x + 1) + " " + NatToString(y + 1)
  {
  }

  /** The white pixel placed 3x3 at (10, 20) is announced at (11, 21). */
  lemma {:induction false} WhitePixelExample()
    ensures WhitePixelLine(Placed(WhitePixelContent, 10, 20, 3, 3)) == "whitepixel 11 21"
  {
    WhitePixelCentre(10, 20);
    assert NatToString(11) == NatToString(1) + [DigitChar(1)];
    assert NatToString(21) == NatToString(2) + [DigitChar(1)];
  }

  /** `appendGorillaWhitePixel`: the line of the first placed white pixel,
      or the error thrown when there is none. */
  method AppendWhitePixel(placed: seq<Placed>) returns (r: Result<string>)
    ensures r.Err? <==> forall j :: 0 <= j < |placed| ==> !InSection(placed[j], WhitePixelSection)
    ensures r.Err? ==> r.error == WhitePixelMissing
    ensures r.Ok? ==> FindWhitePixel(placed, 0).Some? && r.value == WhitePixelLine(placed[FindWhitePixel(placed, 0).value])
  {
    var i := 0;
    while i < |placed|
      invariant 0 <= i <= |placed|
      invariant FindWhitePixel(placed, i) == FindWhitePixel(placed, 0)
    {
      if placed[i].content.name == WhitePixelName {
        return Ok(WhitePixelLine(placed[i]));
      }
      i := i + 1;
    }
    return Err(WhitePixelMissing);
  }

  // ---------------------------------------------------------------------
  // Fonts.

  /** The texts of `part` for every placed item, joined in placement
      order; the first part that fails makes the whole fail. */
  function Gather(placed: seq<Placed>, part: Placed -> Result<seq<string>>): Result<seq<string>>
  {
    if |placed| == 0 then Ok([])
    else
      match Gather(placed[..|placed| - 1], part)
      case Err(e) => Err(e)
      case Ok(text) =>
        match part(placed[|placed| - 1])
        case Err(e) => Err(e)
        case Ok(more) => Ok(text + more)
  }

  /** Gathering a concatenation joins what its two halves gather. */
  lemma {:induction false} GatherAppend(a: seq<Placed>, b: seq<Placed>, part: Placed -> Result<seq<string>>)
    decreases |b|
    requires Gather(a, part).Ok? && Gather(b, part).Ok?
    ensures Gather(a + b, part) == Ok(Gather(a, part).value + Gather(b, part).value)
  {
    if |b| == 0 {
      assert a + b == a;
      assert Gather(a, part).value + [] == Gather(a, part).value;
    } else {
      var b' := b[..|b| - 1];
      var p := b[|b| - 1];
      assert (a + b)[..|a + b| - 1] == a + b';
      assert (a + b)[|a + b| - 1] == p;
      GatherAppend(a, b', part);
      var more := part(p).value;
      assert Gather(a, part).value + Gather(b', part).value + more == Gather(a, part).value + (Gather(b', part).value + more);
    }
  }

  /** One more item visited. */
  lemma {:induction false} GatherStep(placed: seq<Placed>, part: Placed -> Result<seq<string>>, i: nat)
    requires i < |placed| && Gather(placed[..i], part).Ok?
    ensures Gather(placed[..i + 1], part) ==
      match part(placed[i])
      case Err(e) => Err(e)
      case Ok(more) => Ok(Gather(placed[..i], part).value + more)
  {
    assert placed[..i + 1][..i] == placed[..i];
  }

  /** Once a prefix fails, so does the whole sequence, with the same error. */
  lemma {:induction false} GatherErrExtends(placed: seq<Placed>, part: Placed -> Result<seq<string>>, n: nat)
    decreases |placed| - n
    requires n <= |placed| && Gather(placed[..n], part).Err?
    ensures Gather(placed, part) == Gather(placed[..n], part)
  {
    if n < |placed| {
      assert placed[..n + 1][..n] == placed[..n];
      GatherErrExtends(placed, part, n + 1);
    } else {
      assert placed[..n] == placed;
    }
  }

  /** What one placed item adds to the fonts section: a font's block,
      offset to where the font landed; nothing for any other item. */
  function FontPart(p: Placed): Result<seq<string>>
  {
    if p.content.kind.Font? then FontBlock(p.content.kind.sideCar, p.x, p.y) else Ok([])
  }

  /** What `appendGorillaFonts` writes: the block of every placed font, in
      placement order. */
  function FontsText(placed: seq<Placed>): Result<seq<string>>
  {
    Gather(placed, FontPart)
  }

  /** Only fonts contribute to the fonts section. */
  lemma {:induction false} FontsTextOfFonts(placed: seq<Placed>)
    ensures FontsText(placed) == FontsText(Select(placed, FontSection))
  {
    if |placed| > 0 {
      var init := placed[..|placed| - 1];
      var p := placed[|placed| - 1];
      FontsTextOfFonts(init);
      var sel := Select(placed, FontSection);
      if p.content.kind.Font? {
        assert sel == Select(init, FontSection) + [p];
        assert sel[..|sel| - 1] == Select(init, FontSection);
        assert sel[|sel| - 1] == p;
      } else {
        assert sel == Select(init, FontSection);
        assert FontPart(p) == Ok([]);
        if FontsText(init).Ok? {
          assert FontsText(init).value + [] == FontsText(init).value;
        }
      }
    }
  }

  /** The fonts section of a concatenation is the sections of its parts,
      in order. */
  lemma {:induction false} FontsTextAppend(a: seq<Placed>, b: seq<Placed>)
    requires FontsText(a).Ok? && FontsText(b).Ok?
    ensures FontsText(a + b) == Ok(FontsText(a).value + FontsText(b).value)
  {
    GatherAppend(a, b, FontPart);
  }

  /** A single placed font contributes its block, offset to its place. */
  lemma {:induction false} FontsTextOne(p: Placed)
    requires p.content.kind.Font?
    ensures FontsText([p]) == FontBlock(p.content.kind.sideCar, p.x, p.y)
  {
    assert [p][..0] == [];
    assert Gather([p][..0], FontPart) == Ok([]);
    assert FontPart([p][0]) == FontBlock(p.content.kind.sideCar, p.x, p.y);
    match FontBlock(p.content.kind.sideCar, p.x, p.y)
    case Err(_) =>
    case Ok(block) => assert [] + block == block;
  }

  /** Fonts that loaded cannot fail to be written out again. */
  lemma {:induction false} FontsTextOk(placed: seq<Placed>)
    requires forall i :: 0 <= i < |placed| ==> Loaded(placed[i].content)
    ensures FontsText(placed).Ok?
  {
    if |placed| > 0 {
      var p := placed[|placed| - 1];
      FontsTextOk(placed[..|placed| - 1]);
      if p.content.kind.Font? {
        RewriteBodyOkIff(p.content.kind.sideCar);
      }
    }
  }

  /** `appendGorillaFonts`: every placed font writes its block through the
      parser of its side-car. */
  method AppendFonts(placed: seq<Placed>) returns (r: Result<seq<string>>)
    ensures r == FontsText(placed)
  {
    var out: seq<string> := [];
    var i := 0;
    while i < |placed|
      invariant 0 <= i <= |placed|
      invariant FontsText(placed[..i]) == Ok(out)
    {
      var p := placed[i];
      GatherStep(placed, FontPart, i);
      if p.content.kind.Font? {
        var parser := new GorillaFontParser(p.content.kind.sideCar);
        var block := parser.AppendGorilla(p.x, p.y);
        if block.Err? {
          GatherErrExtends(placed, FontPart, i + 1);
          return Err(block.error);
        }
        out := out + block.value;
      } else {
        assert out + [] == out;
      }
      i := i + 1;
    }
    assert placed[..i] == placed;
    return Ok(out);
  }

  // ---------------------------------------------------------------------
  // Sprites.

  /** A sprite's name in the descriptor: its file name without directory
      and without extension. */
  function SpriteName(name: string): (r: string)
    ensures r <= StripPath(name)
    ensures '/' !in r
  {
    StripExtension(StripPath(name))
  }

  /** A sprite's line: its name, then x, y, w, h, each followed by a space
      (the same layout as a glyph line). */
  function SpriteLine(p: Placed): string
  {
    GlyphText(SpriteName(p.content.name), Glyph(p.x, p.y, p.w, p.h))
  }

  /** A sprite line reads back, as a glyph line would, as the sprite's name
      and placement, provided the name has no space in it. */
  lemma {:induction false} SpriteLineRoundTrip(p: Placed)
    requires ' ' !in SpriteName(p.content.name)
    ensures ParseGlyph(SpriteLine(p)) == Some(Glyph(p.x, p.y, p.w, p.h))
    ensures GlyphKey(SpriteLine(p)) == SpriteName(p.content.name)
  {
    GlyphTextRoundTrip(SpriteName(p.content.name), Glyph(p.x, p.y, p.w, p.h));
    GlyphTextKey(SpriteName(p.content.name), Glyph(p.x, p.y, p.w, p.h));
  }

  /** The lines of the sprites section, one per sprite in placement
      order. */
  function SpriteLines(placed: seq<Placed>): seq<string>
  {
    if |placed| == 0 then []
    else
      var p := placed[|placed| - 1];
      SpriteLines(placed[..|placed| - 1]) + (if InSection(p, SpriteSection) then [SpriteLine(p)] else [])
  }

  /** The sprites section holds exactly one line per item of the sprites
      pass, in the same order. */
  lemma {:induction false} SpriteLinesOfSprites(placed: seq<Placed>)
    ensures |SpriteLines(placed)| == |Select(placed, SpriteSection)|
    ensures forall k :: 0 <= k < |SpriteLines(placed)| ==> SpriteLines(placed)[k] == SpriteLine(Select(placed, SpriteSection)[k])
  {
    if |placed| > 0 {
      SpriteLinesOfSprites(placed[..|placed| - 1]);
    }
  }

  /** One more placed item visited by a pass. */
  lemma {:induction false} SelectStep(placed: seq<Placed>, i: nat, s: Section)
    requires i < |placed|
    ensures Select(placed[..i + 1], s) == Select(placed[..i], s) + (if InSection(placed[i], s) then [placed[i]] else [])
  {
    assert placed[..i + 1][..i] == placed[..i];
  }

  /** `appendGorillaSprites`: one line per placed item that is neither a
      font nor the white pixel, in placement order. */
  method AppendSprites(placed: seq<Placed>) returns (out: seq<string>)
    ensures out == SpriteLines(placed)
  {
    out := [];
    var i := 0;
    while i < |placed|
      invariant 0 <= i <= |placed|
      invariant out == SpriteLines(placed[..i])
    {
      assert placed[..i + 1][..i] == placed[..i];
      if !placed[i].content.kind.Font? && placed[i].content.name != WhitePixelName {
        out := out + [SpriteLine(placed[i])];
      }
      i := i + 1;
    }
    assert placed[..i] == placed;
  }

  // ---------------------------------------------------------------------
  // The descriptor.

  /** The descriptor's lines: `[Texture]`, `file <output>`, the white-pixel
      line, a blank line, the fonts, a blank line, `[Sprites]` and the
      sprites. */
  function DescriptorLines(output: string, placed: seq<Placed>): Result<seq<string>>
  {
    match FindWhitePixel(placed, 0)
    case None => Err(WhitePixelMissing)
    case Some(i) =>
      match FontsText(placed)
      case Err(e) => Err(e)
      case Ok(fonts) =>
        Ok([TextureTag, FileTag + output, WhitePixelLine(placed[i]), BlankLine] + fonts + [BlankLine, SpritesTag] + SpriteLines(placed))
  }

  /** What one `packImages` call does with the packer's result. */
  function PackOutcome(files: Files, output: string, packing: Packing): Result<Outcome>
  {
    if |packing.remainder| > 0 then Ok(NotPlaced)
    else if output !in files.knownFormats then Err(UnknownOutputFormat)
    else match DescriptorLines(output, packing.placed)
      case Err(e) => Err(e)
      case Ok(lines) => Ok(Written(Gorilla(SideCarPath(output), lines)))
  }

  /** The descriptor body written by `packImages`, section by section. */
  method WriteDescriptor(output: string, placed: seq<Placed>) returns (r: Result<seq<string>>)
    ensures r == DescriptorLines(output, placed)
  {
    var header := [TextureTag, FileTag + output];
    var whitePixel := AppendWhitePixel(placed);
    if whitePixel.Err? {
      return Err(whitePixel.error);
    }
    var fonts := AppendFonts(placed);
    if fonts.Err? {
      return Err(fonts.error);
    }
    var sprites := AppendSprites(placed);
    var lines := header + [whitePixel.value, BlankLine] + fonts.value + [BlankLine, SpritesTag] + sprites;
    assert lines == [TextureTag, FileTag + output, whitePixel.value, BlankLine] + fonts.value + [BlankLine, SpritesTag] + sprites;
    return Ok(lines);
  }

  /** `packImages`: gives up (returns 1) when anything is left over;
      otherwise writes the descriptor next to the output image. */
  method PackImages(files: Files, output: string, packing: Packing) returns (r: Result<Outcome>)
    ensures r == PackOutcome(files, output, packing)
  {
    if |packing.remainder| > 0 {
      return Ok(NotPlaced);
    }
    if output !in files.knownFormats {
      return Err(UnknownOutputFormat);
    }
    var path := StripExtension(output) + GorillaExtension;
    var lines := WriteDescriptor(output, packing.placed);
    if lines.Err? {
      return Err(lines.error);
    }
    return Ok(Written(Gorilla(path, lines.value)));
  }

  /** When everything fits, the output format is known, every placed item
      was loaded and the white pixel is among them, `packImages` writes
      the descriptor next to the output image, never throwing. */
  lemma {:induction false} PackOutcomeWritten(files: Files, output: string, packing: Packing)
    requires |packing.remainder| == 0 && output in files.knownFormats
    requires forall i :: 0 <= i < |packing.placed| ==> Loaded(packing.placed[i].content)
    requires exists i :: 0 <= i < |packing.placed| && packing.placed[i].content == WhitePixelContent
    ensures PackOutcome(files, output, packing).Ok?
    ensures PackOutcome(files, output, packing).value.Written?
    ensures PackOutcome(files, output, packing).value.descriptor.path == SideCarPath(output)
  {
    var i :| 0 <= i < |packing.placed| && packing.placed[i].content == WhitePixelContent;
    assert InSection(packing.placed[i], WhitePixelSection);
    FontsTextOk(packing.placed);
  }
}
