/** `MyContent` (binpack2d_gorilla.hpp), reduced to a name, a kind and a
    size, and `loadImages` (gorilla_binpacker.cpp), which turns the input
    file names into the list of items handed to the packer.  Bitmaps are
    represented only by their dimensions. */
module Contents {
  import opened Wrappers
  import opened FileNames
  import opened FontParser

  const WhitePixelName: string := "__whitepixel__"
  const WhitePixelSize: nat := 3

  /** A plain image, a bitmap font (with the lines of its side-car file),
      or the generated white pixel. */
  datatype Kind = Sprite | Font(sideCar: seq<string>) | WhitePixel

  /** One item to pack: its file name, its kind, and the size it occupies. */
  datatype Content = Content(name: string, kind: Kind, width: nat, height: nat)

  /** What the tool reads from disk: the dimensions of every image
      FreeImage can load, the text files that exist (by path, line by
      line), and the output names whose image format FreeImage recognises. */
  datatype Files = Files(images: map<string, Extent>, texts: map<string, seq<string>>, knownFormats: set<string>)

  /** The 3x3 white item added to every atlas. */
  const WhitePixelContent: Content := Content(WhitePixelName, WhitePixel, WhitePixelSize, WhitePixelSize)

  /** What every loaded item satisfies: only the white pixel carries the
      white-pixel name and it is 3x3, and a font is exactly as large as
      the glyph area its side-car describes. */
  predicate Loaded(c: Content) {
    && (c.kind.WhitePixel? <==> c.name == WhitePixelName)
    && (c.kind.WhitePixel? ==> c.width == WhitePixelSize && c.height == WhitePixelSize)
    && (c.kind.Font? ==> Dimensions(c.kind.sideCar) == Ok(Extent(c.width, c.height)))
  }

  /** The item the `MyContent` constructor builds for `name`, or the error
      it throws. */
  function Load(files: Files, name: string): Result<Content>
  {
    if name == WhitePixelName then Ok(WhitePixelContent)
    else if name !in files.images then Err(ImageLoadError(name))
    else if SideCarPath(name) !in files.texts then
      Ok(Content(name, Sprite, files.images[name].width, files.images[name].height))
    else
      var sideCar := files.texts[SideCarPath(name)];
      match Dimensions(sideCar)
      case Err(_) => Err(GlyphDataError)
      case Ok(d) => Ok(Content(name, Font(sideCar), d.width, d.height))
  }

  /** The white-pixel name always yields the 3x3 white pixel; any other
      name must be a loadable image.  That image is a font exactly when its
      `.gorilla` side-car exists, and its size is then the measured glyph
      area (the bitmap is cropped to it); loading fails when a glyph line
      of the side-car is malformed.  Otherwise it is a sprite of the
      image's own size. */
  lemma {:induction false} LoadMeaning(files: Files, name: string)
    ensures Load(files, name).Ok? ==> Load(files, name).value.name == name && Loaded(Load(files, name).value)
    ensures name == WhitePixelName ==> Load(files, name) == Ok(WhitePixelContent)
    ensures name != WhitePixelName && name !in files.images ==> Load(files, name) == Err(ImageLoadError(name))
    ensures name != WhitePixelName && name in files.images && SideCarPath(name) !in files.texts ==>
      Load(files, name) == Ok(Content(name, Sprite, files.images[name].width, files.images[name].height))
    ensures name != WhitePixelName && name in files.images && SideCarPath(name) in files.texts ==>
      (Load(files, name).Err? <==> Dimensions(files.texts[SideCarPath(name)]).Err?) &&
      (Load(files, name).Err? ==> Load(files, name).error == GlyphDataError) &&
      (Load(files, name).Ok? ==> Load(files, name).value.kind == Font(files.texts[SideCarPath(name)]))
  {
  }

  /** The `MyContent` constructor together with `initFontParser`. */
  method NewContent(files: Files, name: string) returns (r: Result<Content>)
    ensures r == Load(files, name)
  {
    if name == WhitePixelName {
      return Ok(WhitePixelContent);
    }
    if name !in files.images {
      return Err(ImageLoadError(name));
    }
    var image := files.images[name];
    var sideCarPath := SideCarPath(name);
    if sideCarPath !in files.texts {
      return Ok(Content(name, Sprite, image.width, image.height));
    }
    var parser := Open(files.texts[sideCarPath]);
    if parser.Err? {
      return Err(GlyphDataError);
    }
    return Ok(Content(name, Font(parser.value.lines), parser.value.width, parser.value.height));
  }

  /** The items of `names` in order, or the error of the first name that
      fails to load. */
  function LoadEach(files: Files, names: seq<string>): Result<seq<Content>>
  {
    if |names| == 0 then Ok([])
    else match LoadEach(files, names[..|names| - 1])
      case Err(e) => Err(e)
      case Ok(items) =>
        match Load(files, names[|names| - 1])
        case Err(e) => Err(e)
        case Ok(c) => Ok(items + [c])
  }

  /** `loadImages`: one item per input name, then the white pixel. */
  function LoadAll(files: Files, names: seq<string>): Result<seq<Content>>
  {
    match LoadEach(files, names)
    case Err(e) => Err(e)
    case Ok(items) => Ok(items + [WhitePixelContent])
  }

  /** Loading succeeds exactly when every name loads, and then item `i`
      is the item of name `i`. */
  lemma {:induction false} LoadEachOkIff(files: Files, names: seq<string>)
    ensures LoadEach(files, names).Ok? <==> forall i :: 0 <= i < |names| ==> Load(files, names[i]).Ok?
    ensures LoadEach(files, names).Ok? ==>
      |LoadEach(files, names).value| == |names| &&
      forall i :: 0 <= i < |names| ==> LoadEach(files, names).value[i] == Load(files, names[i]).value
  {
    if |names| > 0 {
      var init := names[..|names| - 1];
      var last := names[|names| - 1];
      LoadEachOkIff(files, init);
      assert forall i :: 0 <= i < |init| ==> init[i] == names[i];
      if LoadEach(files, init).Ok? && Load(files, last).Ok? {
        assert LoadEach(files, names).value == LoadEach(files, init).value + [Load(files, last).value];
      } else if LoadEach(files, init).Ok? {
        assert LoadEach(files, names).Err?;
      } else {
        var i :| 0 <= i < |init| && !Load(files, init[i]).Ok?;
        assert !Load(files, names[i]).Ok?;
      }
    }
  }

  /** A failed load reports the error of the first name that fails. */
  lemma {:induction false} LoadEachFirstError(files: Files, names: seq<string>)
    requires LoadEach(files, names).Err?
    ensures exists i :: FirstError(files, names, i)
  {
    var init := names[..|names| - 1];
    var last := |names| - 1;
    if LoadEach(files, init).Err? {
      LoadEachFirstError(files, init);
      var i :| FirstError(files, init, i);
      assert init[i] == names[i];
      assert forall j :: 0 <= j < i ==> init[j] == names[j];
      assert FirstError(files, names, i);
    } else {
      LoadEachOkIff(files, init);
      assert forall j :: 0 <= j < last ==> init[j] == names[j];
      assert FirstError(files, names, last);
    }
  }

  /** Name `i` is the first that fails to load, and the whole list fails
      with its error. */
  ghost predicate FirstError(files: Files, names: seq<string>, i: int) {
    && 0 <= i < |names|
    && Load(files, names[i]).Err?
    && (forall j :: 0 <= j < i ==> Load(files, names[j]).Ok?)
    && LoadEach(files, names) == Err(Load(files, names[i]).error)
  }

  /** The item list ends with the white pixel, and when no input is
      itself called `__whitepixel__` it is the only item of that name. */
  lemma {:induction false} LoadAllWhitePixel(files: Files, names: seq<string>)
    requires LoadAll(files, names).Ok?
    ensures |LoadAll(files, names).value| == |names| + 1
    ensures LoadAll(files, names).value[|names|] == WhitePixelContent
    ensures forall i :: 0 <= i < |names| ==> LoadAll(files, names).value[i].name == names[i]
    ensures WhitePixelName !in names ==>
      forall i :: 0 <= i < |names| ==> LoadAll(files, names).value[i].name != WhitePixelName
    ensures forall i :: 0 <= i < |names| + 1 ==> Loaded(LoadAll(files, names).value[i])
  {
    LoadEachOkIff(files, names);
    var items := LoadEach(files, names).value;
    assert forall i :: 0 <= i < |names| ==> LoadAll(files, names).value[i] == items[i];
    forall i | 0 <= i < |names|
      ensures items[i].name == names[i] && Loaded(items[i])
    {
      LoadMeaning(files, names[i]);
    }
  }

  /** Loading one more name extends a successful prefix by its item. */
  lemma {:induction false} LoadEachStep(files: Files, names: seq<string>, i: nat)
    requires i < |names| && LoadEach(files, names[..i]).Ok?
    ensures LoadEach(files, names[..i + 1]) ==
      match Load(files, names[i])
      case Err(e) => Err(e)
      case Ok(c) => Ok(LoadEach(files, names[..i]).value + [c])
  {
    assert names[..i + 1][..i] == names[..i];
  }

  /** Once a prefix fails to load, so does the whole list, with the same
      error. */
  lemma {:induction false} LoadEachErrExtends(files: Files, names: seq<string>, n: nat)
    decreases |names| - n
    requires n <= |names| && LoadEach(files, names[..n]).Err?
    ensures LoadEach(files, names) == LoadEach(files, names[..n])
  {
    if n < |names| {
      assert names[..n + 1][..n] == names[..n];
      LoadEachErrExtends(files, names, n + 1);
    } else {
      assert names[..n] == names;
    }
  }

  /** `loadImages`: constructs the item of every input in turn (the first
      failure propagates as the thrown error), then appends the white
      pixel. */
  method LoadImages(files: Files, names: seq<string>) returns (r: Result<seq<Content>>)
    ensures r == LoadAll(files, names)
  {
    var items: seq<Content> := [];
    var i := 0;
    while i < |names|
      invariant 0 <= i <= |names|
      invariant LoadEach(files, names[..i]) == Ok(items)
    {
      var item := NewContent(files, names[i]);
      LoadEachStep(files, names, i);
      if item.Err? {
        LoadEachErrExtends(files, names, i + 1);
        return Err(item.error);
      }
      items := items + [item.value];
      i := i + 1;
    }
    assert names[..i] == names;
    var whitePixel := NewContent(files, WhitePixelName);
    return Ok(items + [whitePixel.value]);
  }
}
