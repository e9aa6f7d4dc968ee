# gorilla_binpacker in Dafny

A model of the command-line tool that packs sprite images and bitmap fonts
into a single texture atlas and writes the atlas's `.gorilla` descriptor.

The tool:

- reads the input images;
- turns every image that has a `.gorilla` side-car file into a font, sized by
  the glyph area the side-car lists;
- adds a 3x3 white pixel;
- asks a rectangle packer to fit everything into bins of growing size:
  (D, D), (2D, D), (D, 2D) for D = 128, 256, and so on;
- for the first size that fits, writes the atlas and its descriptor. The
  descriptor holds a `[Texture]` header with the white-pixel centre, one
  block per font (its attribute lines, an `offset` line, then the glyph and
  vertical-offset lines) and one line per sprite.

Modules, in dependency order:

- `Wrappers`: `Option`, `Result` and the errors the tool throws.
- `Text`: the pieces of the C and C++ string libraries the tool uses. These
  are `find`, `find_last_of`, `substr` (with `npos` as `None`), `atoi`, and
  decimal output of integers.
- `Glyph`: the `GlyphData` class and what `extractFromLine` reads from one
  `glyph_` line.
- `FileNames`: `stripPath`, `stripExtension` and the side-car path.
- `FontParser`: the `GorillaFontParser` class. It covers measuring a font
  (`parseDimension`), copying its attribute lines (`appendInfo`) and
  re-emitting its block (`appendGorilla`).
- `Contents`: the `MyContent` constructor and `loadImages`.
- `Atlas`: the three descriptor passes (`appendGorillaWhitePixel`,
  `appendGorillaFonts`, `appendGorillaSprites`) and `packImages`.
- `Driver`: `main`. This covers the argument loop, the size search and the
  overall result.

Modelling choices:

- **Files and images.** The file system is a value, `Contents.Files`. It
  holds the dimensions of every loadable image, the text files that exist
  (as sequences of lines), and the output names whose image format is known.
- **The packer** is a function parameter. It maps the items and a bin size
  to the items placed (with their positions) and the items left over.
- **Output.** Each pass returns the lines it writes.
- **Errors.** A thrown `std::runtime_error` is an `Err` value, and one that
  escapes `main` is `Driver.Exit.Crashed`.
- **Integer conversions.** `unsigned` arithmetic that can wrap is reduced
  modulo 2^32 explicitly. This covers the glyph right and bottom edges and
  `next_size *= 2`.

## Model

| member | source | states |
|---|---|---|
| Glyph.NthSpace | binpack2d_gorilla.hpp:32-34 | each successive `find(" ")` of the extraction loop lands on a space inside the line |
| Glyph.ParseGlyphFailsIff | binpack2d_gorilla.hpp:30-37 | `extractFromLine` throws exactly when the line has fewer than four spaces |
| Glyph.ParseGlyphOfFields | binpack2d_gorilla.hpp:30-37 | for a line `key a b c d…` with single spaces the four values are `atoi` of `a`, `b`, `c`, `d`, in that order, although `substr` is given the next position as a count |
| Glyph.ParseGlyphOfSpaces | binpack2d_gorilla.hpp:32-36 | when the four `find` passes land on spaces p0 < p1 < p2 < p3, the values are `atoi(substr(p0, p1))`, `atoi(substr(p1, p2))`, `atoi(substr(p2, p3))` and `atoi(substr(p3, find(" ", p3 + 1)))`. The second argument of `substr` is a count, not an end, so each text read starts at a space and may run past the next one. `atoi` skips the leading white space and reads only the sign and digits that follow |
| Glyph.GlyphTextRoundTrip | binpack2d_gorilla.hpp:108-114 | a glyph line as `appendGorilla` writes it reads back as the same four numbers |
| Glyph.GlyphData.constructor | binpack2d_gorilla.hpp:40-42 | a fresh four-slot `values` array |
| Glyph.GlyphData.ExtractFromLine | binpack2d_gorilla.hpp:25-38 | succeeds exactly when the line parses; `x()`, `y()`, `w()`, `h()` then report its four fields |
| Text.FindCharIsFirst | binpack2d_gorilla.hpp:32-33 | `find` returns the first occurrence at or after the start position, and `npos` only when there is none |
| Text.FindLast | binpack2d_gorilla.hpp:50-54 | `find_last_of` returns an index holding the character with none after it, and `npos` only when it does not occur |
| Text.AtoiOfIntToString | binpack2d_gorilla.hpp:110-113 | `atoi` reads back exactly the decimal text `<<` writes for an integer |
| Text.AtoiOfField | binpack2d_gorilla.hpp:35-36 | `atoi` of a field that starts with its space and runs past the next space reads the field alone |
| FileNames.StripPath | binpack2d_gorilla.hpp:45-58 | the result is a suffix of the name, cut where the last separator rule says; a name without separators is unchanged |
| FileNames.StripPathIsBaseName | binpack2d_gorilla.hpp:45-58 | the result is exactly the text after the cut |
| FileNames.BaseNameCutUnique | binpack2d_gorilla.hpp:50-57 | exactly one position satisfies the cut rule, including the case the `>` comparison creates: a `\` right after the last `/` is kept |
| FileNames.StripExtension | binpack2d_gorilla.hpp:61-64 | the name up to its last `.`, or all of it when there is none; no `.` lies between the cut and the end |
| FileNames.StripExtensionOfAppend | binpack2d_gorilla.hpp:61-64 | stripping undoes appending a dot-free extension |
| FileNames.SideCarPath | binpack2d_gorilla.hpp:72-73 | the side-car or descriptor path ends in `.gorilla` and has the same stem as the image |
| FontParser.U32 | binpack2d_gorilla.hpp:140-143 | conversion to `unsigned` is below 2^32 and leaves in-range values unchanged |
| FontParser.GorillaFontParser.constructor | binpack2d_gorilla.hpp:70-78 | a parser over the opened side-car, with zero size before measuring |
| FontParser.Open | binpack2d_gorilla.hpp:70-78 | opening and measuring fails exactly when measuring does; otherwise the parser holds the file and its measured size |
| FontParser.GorillaFontParser.ParseDimension | binpack2d_gorilla.hpp:124-147 | succeeds exactly when every `glyph_` line parses, leaving the measured extent in `width`/`height` |
| FontParser.DimensionsOkIff | binpack2d_gorilla.hpp:133-146 | measuring fails exactly when some `glyph_` line is malformed |
| FontParser.DimensionsBound | binpack2d_gorilla.hpp:140-144 | every glyph's right and bottom edges lie within the measured extent |
| FontParser.DimensionsAttained | binpack2d_gorilla.hpp:128-146 | each side of the extent is 0 or the edge of some glyph: the extent is tight |
| FontParser.DimensionsOfGlyphLines | binpack2d_gorilla.hpp:136-145 | only `glyph_` lines affect the measurement |
| FontParser.DimensionsWithoutGlyphs | binpack2d_gorilla.hpp:128-146 | a side-car without `glyph_` lines measures 0 by 0 |
| FontParser.DimensionsErrExtends | binpack2d_gorilla.hpp:133-146 | the first malformed glyph line decides the failure; later lines cannot undo it |
| FontParser.FirstFromIsFirst | binpack2d_gorilla.hpp:154-161 | the scan stops at the first line holding the label, and finds nothing only when no line holds it |
| FontParser.InfoLineIsFirst | binpack2d_gorilla.hpp:149-163 | `appendInfo` writes at most one line: the first line holding the label, or nothing when no line holds it |
| FontParser.GorillaFontParser.AppendInfo | binpack2d_gorilla.hpp:149-163 | the loop writes exactly that line |
| FontParser.InfoBlock | binpack2d_gorilla.hpp:88-95 | the eight attribute copies write at most eight lines |
| FontParser.GlyphKey | binpack2d_gorilla.hpp:108 | the glyph name is the prefix of the line up to its first space, or the whole line when it has no space |
| FontParser.GlyphTextKey | binpack2d_gorilla.hpp:108 | the name read from a rewritten glyph line is the name it was written with |
| FontParser.RewriteLineFaithful | binpack2d_gorilla.hpp:106-119 | a glyph line becomes one line with the same name and the same four numbers; a vertical-offset line is copied verbatim |
| FontParser.RewriteBodyOkIff | binpack2d_gorilla.hpp:103-120 | re-emitting a font fails exactly when measuring it does |
| FontParser.RewriteBodyLines | binpack2d_gorilla.hpp:103-120 | the glyph part of a block has one line per glyph or vertical-offset line of the file, in file order, each rewritten by `RewriteLineFaithful` |
| FontParser.RewriteBodyErrExtends | binpack2d_gorilla.hpp:103-120 | a malformed glyph line stops the re-emission with that error |
| FontParser.GorillaFontParser.AppendGlyphs | binpack2d_gorilla.hpp:98-120 | the glyph loop writes the glyph part of the block, or throws at the first malformed glyph line |
| FontParser.GorillaFontParser.AppendGorilla | binpack2d_gorilla.hpp:84-121 | the whole block: attribute lines, the `offset` line, then the glyph part |
| FontParser.FontBlockOffsetOnly | binpack2d_gorilla.hpp:96 | the font's placement shows only in the `offset` line; every other line of the block is the same wherever the font lands |
| Contents.LoadMeaning | binpack2d_gorilla.hpp:181-250 | the white pixel is always 3x3. Any other name must be a loadable image or it throws; it is a font exactly when its side-car exists, sized by the side-car's glyph area (or throwing on a malformed glyph line), and otherwise a sprite of the image's size |
| Contents.NewContent | binpack2d_gorilla.hpp:181-205 | the constructor, with `initFontParser`, builds that item |
| Contents.LoadEachOkIff | gorilla_binpacker.cpp:46-52 | loading succeeds exactly when every name loads, giving one item per name in order |
| Contents.LoadEachFirstError | gorilla_binpacker.cpp:46-52 | a failed load reports the error of the first name that fails |
| Contents.LoadAllWhitePixel | gorilla_binpacker.cpp:43-62 | the items are the inputs' items followed by the white pixel. Each keeps its name and is well formed, and no input item carries the white-pixel name unless an input is so named |
| Contents.LoadImages | gorilla_binpacker.cpp:43-62 | the loop builds that list or stops at the first thrown error |
| Atlas.SectionsPartition | gorilla_binpacker.cpp:74 | every loaded item is in exactly one of the three passes (white pixel, fonts, sprites) |
| Atlas.SelectPartition | gorilla_binpacker.cpp:89-111 | the three passes together visit as many items as were placed |
| Atlas.SelectMembers | gorilla_binpacker.cpp:103-111 | a pass visits exactly the placed items that pass its test |
| Atlas.SelectAppend | gorilla_binpacker.cpp:89-111 | a pass over a concatenation is the passes over its parts, in order |
| Atlas.FindWhitePixel | gorilla_binpacker.cpp:67-80 | the first placed item named like the white pixel, or none |
| Atlas.AppendWhitePixel | gorilla_binpacker.cpp:65-84 | writes the centre of the first white pixel, and throws exactly when none was placed |
| Atlas.WhitePixelCentre | gorilla_binpacker.cpp:76-78 | a 3x3 white pixel at (x, y) is announced at (x + 1, y + 1) |
| Atlas.WhitePixelExample | gorilla_binpacker.cpp:76-78 | placed at (10, 20) it reads `whitepixel 11 21` |
| Atlas.FontsTextOfFonts | gorilla_binpacker.cpp:87-98 | only fonts contribute to the fonts section |
| Atlas.FontsTextAppend | gorilla_binpacker.cpp:87-98 | the fonts section of a concatenation is the sections of its parts, in order |
| Atlas.FontsTextOne | binpack2d_gorilla.hpp:207-212 | one placed font contributes its block, offset to where it landed |
| Atlas.FontsTextOk | gorilla_binpacker.cpp:87-98 | fonts that loaded are always written out again without error |
| Atlas.AppendFonts | gorilla_binpacker.cpp:87-98 | the loop writes that section, or the first error a font's block throws |
| Atlas.SpriteName | binpack2d_gorilla.hpp:215 | a sprite's name is a prefix of its base name and contains no `/` |
| Atlas.SpriteLineRoundTrip | binpack2d_gorilla.hpp:213-221 | a sprite line reads back, like a glyph line, as its name and placement |
| Atlas.SpriteLinesOfSprites | gorilla_binpacker.cpp:101-112 | one sprite line per item of the sprite pass, in the same order |
| Atlas.AppendSprites | gorilla_binpacker.cpp:101-112 | the loop writes exactly those lines |
| Atlas.WriteDescriptor | gorilla_binpacker.cpp:198-210 | the descriptor, or the first error while writing it: the header, the white-pixel line, a blank line, the fonts, a blank line, `[Sprites]`, the sprites |
| Atlas.PackImages | gorilla_binpacker.cpp:115-213 | declines when anything is left over. Otherwise it throws on an unknown output format, or writes the descriptor to the output's `.gorilla` path |
| Atlas.PackOutcomeWritten | gorilla_binpacker.cpp:166-212 | when everything fits, the format is known and the placed items were loaded with the white pixel among them, `packImages` writes the descriptor and throws nothing |
| Driver.ParseArguments | gorilla_binpacker.cpp:223-232 | the argument loop reads the inputs and the output name |
| Driver.ParseWithoutFlag | gorilla_binpacker.cpp:223-232 | without `-o`, every argument is an input, in order, and there is no output name |
| Driver.ParseFlagNotInput | gorilla_binpacker.cpp:225 | `-o` is never taken as an input name |
| Driver.ParseTakesArguments | gorilla_binpacker.cpp:223-232 | every input is an argument, and the output name is an argument that follows a `-o` |
| Driver.ParsePrefix | gorilla_binpacker.cpp:223-232 | a stretch of arguments without `-o` is appended to the inputs in order, and the output name is unchanged |
| Driver.ParseAtFlag | gorilla_binpacker.cpp:223-232 | at the first `-o` that has an argument after it, the arguments before the `-o` are inputs in order, and that argument replaces the output name; reading resumes after it. Together with `ParseWithoutFlag`, this makes the output the argument after the last such `-o` (`""` when there is none), and the inputs every other argument in order |
| Driver.ParseOneFlag | gorilla_binpacker.cpp:223-232 | with one `-o name` on the command line, the output is `name` and the inputs are all the other arguments, in order |
| Driver.SizesDouble | gorilla_binpacker.cpp:248-259 | for 24 rounds `curr_size` is 128·2^k and `next_size` is twice it |
| Driver.SizesWrap | gorilla_binpacker.cpp:248-259 | then `next_size` wraps: round 24 pairs 2^31 with 0, and later rounds try 0 by 0 |
| Driver.Round | gorilla_binpacker.cpp:251-259 | the round of the `t`-th attempt |
| Driver.Slot | gorilla_binpacker.cpp:253-255 | its position within the round |
| Driver.CandidatesOfRound | gorilla_binpacker.cpp:253-255 | the three sizes of a round are (D, D), (2D, D), (D, 2D) |
| Driver.ExitOf | gorilla_binpacker.cpp:253-255 | an attempt that does not decline ends the program with an error or a finished atlas |
| Driver.TryGivesUp | gorilla_binpacker.cpp:251-260 | the search runs out of rounds only when every size tried declines |
| Driver.TryFirstFit | gorilla_binpacker.cpp:251-260 | otherwise it ends with the first size that does not decline, with its atlas or the error it throws |
| Driver.TryNeverUsage | gorilla_binpacker.cpp:251-260 | the search never ends with the usage message |
| Driver.TryCandidate | gorilla_binpacker.cpp:253 | one `packImages` call either ends the search or passes it to the next size |
| Driver.TryRound | gorilla_binpacker.cpp:253-258 | one round tries its three sizes in order |
| Driver.SearchSize | gorilla_binpacker.cpp:246-261 | the loop finds the first size that does not decline, within the rounds allowed |
| Driver.GaveUpMeansForever | gorilla_binpacker.cpp:246-261 | a search that gives up after 26 rounds or more would decline every later size as well, as in the original's endless loop |
| Driver.RunBinpacker | gorilla_binpacker.cpp:216-267 | `main` prints the usage message exactly when the inputs or the output name are missing. Otherwise it crashes with the first load error, or runs the size search over the loaded items |
| Driver.FitWritesDescriptor | gorilla_binpacker.cpp:166-212 | a bin that holds exactly the loaded items, with a known output format, produces the descriptor |

## Left out

- Image handling through FreeImage is not modelled: decoding, file-type detection, allocating, filling, cropping, pasting and saving. An image is represented by its dimensions. An unknown file type is a name missing from `Files.images`; a file the library recognises but fails to decode is not modelled.
- The allocation and paste failures are not modelled ("Error creating white pixel", "Error creating output image", "Error pasting to output image").
- The atlas image itself is not modelled, and neither is the image file written before the descriptor. When the white pixel is missing, the program has already saved the image and begun the descriptor; the model returns only the error.
- The rectangle packer (BinPack2D) is a function parameter, so its placement algorithm, rotation, bin index `z` and the bin count `g_num_of_bin` are not modelled. The descriptor writes the placed items' positions without rotation.
- `inputContent.Sort()` in `loadImages` is not modelled; the items reach the packer parameter in load order. Since the packer is arbitrary, this loses no outcome the packer could produce.
- Console output (`printf`, `std::cout`) is left out.
- The file cursor of a side-car (`resetSeek`, `getline`, `eof`) is not modelled: each pass is a loop over the file's lines from the start. A trailing empty line that `getline` may return holds no label, so it changes nothing.
- Writes to the descriptor stream cannot fail in the model.
- Each placed font's block is produced from the side-car lines read when the font was loaded. The original re-reads the side-car through the parser kept open since loading (binpack2d_gorilla.hpp:72-74, 86-105). It does so after `packImages` has opened the descriptor `stripExtension(output) + ".gorilla"` for writing and written its first lines (gorilla_binpacker.cpp:195-202). Take an input font whose side-car is that same file, e.g. `f.png` with `f.gorilla` and `-o f.tga`. Then the original truncates the font's side-car and emits that font's block from the partly written descriptor. The model does not capture this aliasing: it always uses the side-car as loaded.
- `new`/`delete` of the parser objects are not modelled.
- Driver.SearchSize: the original `while (true)` has no bound. The model takes a number of rounds and returns `GaveUp` after them. From round 25 on every size is 0 by 0 (see `Driver.SizesWrap`), so a search that has not succeeded by then never does, and the original would loop forever (`Driver.GaveUpMeansForever`).
- Driver.ParseArguments: a trailing `-o` makes the original read `argv[argc]` as an input name, which is undefined behaviour. `Parse` returns `None` for it, and the methods that read the command line require it not to happen.
- `loadImages` is declared to return `int` but returns nothing; its result is never used, and the model has no result for it.
- The test `!inputContent.Get().empty()` in `main` always holds, because `loadImages` always appends the white pixel. The model has no branch for it.
- Text.Atoi: overflow, which is undefined in C, is not modelled; the value is an unbounded integer. `int` overflow in `x + w` is likewise not modelled: the sum is exact before it is converted to `unsigned`.
- Glyph positions are written back unshifted; only the font's `offset` line carries where the font was placed in the atlas. The model follows the code here (`FontParser.RewriteLineFaithful`, `FontParser.FontBlockOffsetOnly`). The descriptor does not give the glyphs' atlas positions directly: a reader adds the offset.
- A font's side-car with no `glyph_` lines gives a 0-by-0 font; this follows from the code (`FontParser.DimensionsWithoutGlyphs`).
- The demonstration program `binpack2d_exemple.cpp` is not part of this model.
