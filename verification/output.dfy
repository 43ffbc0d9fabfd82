/** Saving an avatar: the output-format dispatch of `saveToFile` and the
    `GenerateFile` / `GenerateFileForUsername` wrappers of govatar.go.
    Creating the file and running the encoder are not modelled; a successful
    call yields the request to write the image at the path in the chosen
    format. */
module Output {
  import opened Basics
  import opened FilePath
  import opened Rand
  import opened Image
  import opened Catalog
  import opened Avatar
  import opened Govatar

  /** The encoders `saveToFile` can choose. */
  datatype Format = Jpeg(quality: int) | Gif | Png

  /** The JPEG quality `saveToFile` asks for. */
  const JPEG_QUALITY: int := 80

  /** The `switch` of `saveToFile` on `strings.ToLower(filepath.Ext(path))`:
      `.jpeg` and `.jpg` select JPEG at quality 80, `.gif` selects GIF, and
      anything else, no extension included, selects PNG. */
  function FormatFor(path: string): (f: Format)
    ensures f == Jpeg(JPEG_QUALITY) || f == Gif || f == Png
    ensures forall e :: IsExtension(path, e) ==>
              && (f.Jpeg? <==> ToLower(e) == ".jpeg" || ToLower(e) == ".jpg")
              && (f == Gif <==> ToLower(e) == ".gif")
  {
    var e := Ext(path);
    forall e' | IsExtension(path, e') ensures e' == e {
      ExtensionUnique(path, e', e);
    }
    match ToLower(e)
    case ".jpeg" => Jpeg(JPEG_QUALITY)
    case ".jpg" => Jpeg(JPEG_QUALITY)
    case ".gif" => Gif
    case _ => Png
  }

  /** The dispatch ignores case anywhere in the path: a path and its
      lower-cased form are saved in the same format. */
  lemma FormatIgnoresCase(path: string)
    ensures FormatFor(ToLower(path)) == FormatFor(path)
  {
    ExtOfLower(path);
    ToLowerIdempotent(Ext(path));
  }

  /** The file names of the saving tests: whatever the base name, `.jpeg` and
      `.jpg` give JPEG at quality 80, `.png` and `.xyz` give PNG, `.gif` gives
      GIF, and upper-case extensions behave the same. */
  lemma FormatOfTestFileNames(name: string)
    ensures FormatFor(name + ".jpeg") == Jpeg(80)
    ensures FormatFor(name + ".jpg") == Jpeg(80)
    ensures FormatFor(name + ".png") == Png
    ensures FormatFor(name + ".gif") == Gif
    ensures FormatFor(name + ".xyz") == Png
    ensures FormatFor(name + ".JPG") == Jpeg(80)
    ensures FormatFor(name + ".GIF") == Gif
  {
    ExtOfSuffix(name, ".jpeg");
    ExtOfSuffix(name, ".jpg");
    ExtOfSuffix(name, ".png");
    ExtOfSuffix(name, ".gif");
    ExtOfSuffix(name, ".xyz");
    ExtOfSuffix(name, ".JPG");
    ExtOfSuffix(name, ".GIF");
    assert ToLower(".jpeg") == ".jpeg";
    assert ToLower(".jpg") == ".jpg";
    assert ToLower(".png") == ".png";
    assert ToLower(".gif") == ".gif";
    assert ToLower(".xyz") == ".xyz";
    assert ToLower(".JPG") == ".jpg";
    assert ToLower(".GIF") == ".gif";
  }

  /** A path without an extension is saved as PNG. */
  lemma NoExtensionMeansPng(path: string)
    requires forall k :: 0 <= k < |path| ==> path[k] != '.'
    ensures FormatFor(path) == Png
  {
    assert IsExtension(path, "");
    ExtensionUnique(path, Ext(path), "");
  }

  /** What `saveToFile(img, path)` writes: `img` encoded as `FormatFor(path)`. */
  datatype SaveRequest<Img> = SaveRequest(path: string, format: Format, image: Canvas<Img>)

  /** `GenerateFileForUsername(gender, username, path)`: the generation error
      if there is one (no file is written, so a partially painted canvas never
      reaches disk); otherwise the complete avatar, to be saved at `path` in
      the format its extension selects. */
  function GenerateFileForUsername<S(!new), Img>(store: Store, rng: Rng<S>, decode: string -> Result<Img, string>,
                                                gender: Gender, username: seq<byte>, path: string)
    : (r: Result<SaveRequest<Img>, Error>)
    requires rng.Valid()
    requires Supported(gender) ==> store.ReadyFor(gender)
    ensures !Supported(gender) ==> r == Failure(ErrUnsupportedGender)
    ensures var g := GenerateForUsername(store, rng, decode, gender, username);
            && (Supported(gender) ==> (r.Success? <==> g.err.None?))
            && (r.Failure? ==> g.err == Some(r.error))
            && (r.Success? ==> g.image == Some(r.value.image))
    ensures r.Success? ==> && r.value.path == path && r.value.format == FormatFor(path)
                           && r.value.image.bounds == AvatarBounds()
                           && |r.value.image.layers| == 6
  {
    var g := GenerateForUsername(store, rng, decode, gender, username);
    if g.err.Some? then Failure(g.err.value)
    else
      assert |g.image.value.layers| == 6 by {
        GenerateForUsernameComposesSelection(store, rng, decode, gender, username);
      }
      Success(SaveRequest(path, FormatFor(path), g.image.value))
  }

  /** `GenerateFile(gender, path)`: `GenerateFileForUsername` keyed by the
      text of the current time `now`. */
  function GenerateFile<S(!new), Img>(store: Store, rng: Rng<S>, decode: string -> Result<Img, string>,
                                     gender: Gender, now: seq<byte>, path: string)
    : (r: Result<SaveRequest<Img>, Error>)
    requires rng.Valid()
    requires Supported(gender) ==> store.ReadyFor(gender)
    ensures !Supported(gender) ==> r == Failure(ErrUnsupportedGender)
    ensures var g := GenerateForUsername(store, rng, decode, gender, now);
            && (Supported(gender) ==> (r.Success? <==> g.err.None?))
            && (r.Failure? ==> g.err == Some(r.error))
            && (r.Success? ==> g.image == Some(r.value.image))
    ensures r.Success? ==> && r.value.path == path && r.value.format == FormatFor(path)
                           && r.value.image.bounds == AvatarBounds()
                           && |r.value.image.layers| == 6
  {
    var g := Generate(store, rng, decode, gender, now);
    if g.err.Some? then Failure(g.err.value)
    else
      assert |g.image.value.layers| == 6 by {
        GenerateForUsernameComposesSelection(store, rng, decode, gender, now);
      }
      Success(SaveRequest(path, FormatFor(path), g.image.value))
  }
}
