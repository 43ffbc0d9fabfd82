# govatar in Dafny

A model of the decision logic of govatar, a Go library that builds a
400×400 portrait avatar by stacking six pre-drawn layers (background, face,
clothes, mouth, hair, eye) chosen by a seeded pseudo-random process. The
model covers:

- **Seed derivation.** `GenerateForUsername` hashes the username's bytes with
  32-bit FNV-1a (offset basis 2166136261, prime 16777619) and widens the hash
  to `int64`. `Generate` does the same with the text of the current time.
- **Gender dispatch.** `MALE` is 0 and `FEMALE` is 1. Any other value yields
  `ErrUnsupportedGender` and a nil image, before the store is consulted.
- **Layer selection and painting** (`randomAvatar`, `drawImg`). A generator
  local to the call makes one draw per category, in the order background,
  face, clothes, mouth, hair, eye. The background comes from the list shared
  by both genders. Layers are painted in the same order onto a 400×400
  canvas. The error is threaded from one `drawImg` call to the next, so after
  the first decoding failure nothing more is painted, but all six draws still
  happen.
- **Output-format dispatch** (`saveToFile`). The lower-cased extension picks
  the encoder: `.jpeg`/`.jpg` give JPEG at quality 80, `.gif` gives GIF, and
  anything else gives PNG. `GenerateFile` and `GenerateFileForUsername` wrap
  this.
- **Catalog construction** (`getPerson`, `mustAssetsList`, `init`). Each
  directory `data/<male|female>/<category>` and the shared
  `data/background` gives a list with one `filepath.Join(dir, entry)` per
  directory entry, sorted by a comparator.
- **Random helpers** `RandInt` and `RandString` of utils.go.

Abstractions:

- **Generator.** Go's generator is abstract: `Rand.Rng` turns a seed into a
  state, and `intn` makes one draw below `n`. Its one promise is that a draw
  lies in `[0, n)` for `n > 0`.
- **Decoder.** Reading an asset and decoding it is the parameter `decode`.
  It returns an image or the decoder's error text.
- **Canvas.** A canvas is its bounds plus the ordered list of source images
  blended onto it (`Image.Canvas`). Source-over blending onto a fresh
  transparent canvas is deterministic, so that list fixes every pixel.
- **File system and comparator.** The embedded file system is the parameter
  `readDir`, the entry names of a directory. The sort comparator is the
  parameter `less`.

Modules: `Basics` (Go integer widths and Option/Result), `Fnv`, `Rand`,
`Utils`, `FilePath` (Go's `filepath.Ext`, `filepath.Join` and
`strings.ToLower`), `Sorting` (the `sort.Sort` contract), `Image`, `Catalog`,
`Avatar`, `Govatar` (entry points) and `Output` (saving).

Two behaviours of govatar.go worth knowing, both kept in the model:

- **Partial canvas.** `randomAvatar` returns the partly painted canvas
  together with the decoding error (govatar.go:129), so
  `GenerateForUsername` can return a non-nil image and an error.
  `GenerateFile*` check the error first (govatar.go:67-70, 93-96), so a
  partial canvas is never saved.
- **Empty directories.** Nothing rejects an empty asset directory when the
  store is built (govatar.go:52-55). An empty list only makes `Intn(0)` panic
  when an avatar is drawn. The model therefore requires
  `Store.ReadyFor(gender)` of generation callers, and `Catalog.Init` states
  when the built store meets it.

## Model

| member | source | states |
|---|---|---|
| Fnv.Write | govatar.go:76-77 | The byte loop run over a fresh `New32a` computes the published FNV-1a-32 value `Sum32a` of the bytes; the loop invariant is that the state is the hash of the bytes consumed so far. |
| Fnv.FoldAppend | govatar.go:76-77 | Feeding two chunks one after the other gives the same state as feeding their concatenation, so hashing does not depend on how the bytes are split across writes. |
| Fnv.Golden | govatar.go:76-77 | FNV-1a-32 of "", "a", "ab" and "abc" equals the reference values 0x811c9dc5, 0xe40c292c, 0x4d2505ca and 0x1a47e90b. |
| Govatar.Seed | govatar.go:76-85 | The seed is the 32-bit FNV-1a hash of the username widened to int64, so it is non-negative and below 2^32. |
| Govatar.SeedOfConcatenation | govatar.go:76-85 | The seed of `a + b` is the hash of `a` continued over `b`. |
| Govatar.GenerateForUsername | govatar.go:75-89 | The image is nil exactly when the gender is neither MALE (0) nor FEMALE (1), and the error is `ErrUnsupportedGender` exactly then. Any image returned is the 400×400 rectangle at the origin. |
| Govatar.Generate | govatar.go:60-62 | Same contract as `GenerateForUsername`, keyed by the text of the current time. |
| Govatar.GenerateForUsernameComposesSelection | govatar.go:81-85 | For a supported gender, the image is the compositor run on the seeded selection from that gender's lists and the shared backgrounds. Each painted layer is the decoded selected asset at its position. The error is the compositor's error, and there is no error exactly when all six layers were painted. |
| Govatar.UnsupportedGenderIgnoresEverything | govatar.go:81-88 | For an unsupported gender, the result is (nil, `ErrUnsupportedGender`) whatever the store, generator, decoder and username. |
| Govatar.SameHashSameAvatar | govatar.go:76-85 | Usernames with equal hashes, equal usernames in particular, get equal seeds and equal images. |
| Avatar.AvatarBounds | govatar.go:121 | The avatar rectangle has its minimum at (0,0), width 400, height 400, and is not empty. |
| Avatar.DrawImg | govatar.go:132-142 | With an incoming error, the call returns that error and paints nothing. Otherwise a decodable asset is blended on top and the result is nil. An undecodable asset leaves the canvas untouched and returns the decoder's error. Bounds never change. |
| Avatar.PaintAll | govatar.go:122-129 | Threading the error through a run of `drawImg` calls preserves bounds and what was already painted. It paints the decoded assets of a prefix of the list. It succeeds exactly when the whole list was painted; otherwise the error is that of the first asset not painted, which failed to decode. |
| Avatar.Compose | govatar.go:121-129 | On a fresh 400×400 canvas, the painted layers are the decodings of a prefix of the selection. There is no error exactly when every asset decodes. An error is the decoding error of the first failing asset. |
| Avatar.DrawAll | govatar.go:123-128 | One pick per list, each an element of its own list. |
| Avatar.Select | govatar.go:123-128 | The background comes from the shared background list, and face, clothes, mouth, hair and eye each come from the person's list for that category. |
| Avatar.RandomAvatar | govatar.go:119-130 | The returned canvas is always the 400×400 rectangle, holds at most six layers, and any error is a decoding error. |
| Avatar.RandomAvatarSelectsThenComposes | govatar.go:119-130 | Interleaving draws with `drawImg` calls, as written, equals drawing all six layers first and then painting them in the same order. |
| Avatar.DrawAllFollowsStream | govatar.go:123-128 | The k-th pick is the element of the k-th list at the k-th index the generator yields, where draw k is bounded by the length of list k. |
| Avatar.SelectDrawOrder | govatar.go:120-128 | `randomAvatar` makes exactly six draws, bounded by the lengths of the background, face, clothes, mouth, hair and eye lists in that order, and layer k is at the k-th drawn index of list k. |
| Avatar.BackgroundIgnoresPerson | govatar.go:123 | The background is the first draw from the shared list, so at a given seed it is the same for both genders. |
| Rand.PickItem | govatar.go:123 | `randStringSliceItem` returns an element of its non-empty slice, using one draw. |
| Utils.RandInt | utils.go:6-8 | `Intn` panics unless the wrapped width `max - min` is positive, hence the precondition. The result is `min` plus a draw below that width, modulo 2^64. For `min < max` it lies in `[min, max)`. |
| Utils.RandIntUnitRange | utils.go:6-8 | `RandInt(k, k+1)` returns `k` for every int64 `k`, even at the top of the range, where `k+1` wraps. |
| Utils.RandIntWideRangeRejected | utils.go:7 | For `min = MinInt64 < max = MaxInt64` the width wraps to -1, so `RandInt`'s guard rejects a non-empty range. |
| Utils.RandIntReversedBoundsAccepted | utils.go:7 | `RandInt(MaxInt64, MinInt64)` passes the guard, since the width wraps to 1, and returns `MaxInt64`, which is not below `max`. |
| Utils.RandIntExact | utils.go:6-8 | The corrected `RandInt` accepts every `min < max` and always returns a value in `[min, max)`. |
| Utils.RandIntExactAgrees | utils.go:6-8 | When the width does not overflow, the corrected and the written `RandInt` give the same value and next state. |
| Utils.RandString | utils.go:11-13 | The result is `slice[i]` for some index `0 <= i < len(slice)` of a non-empty slice. |
| Utils.RandStringIsPickItem | utils.go:11-13 | `RandString` and `randStringSliceItem` pick the same element from the same generator state. |
| FilePath.Ext | govatar.go:108 | `filepath.Ext` returns the suffix starting at the last dot of the final path element, or "" when that element has no dot. |
| FilePath.ExtensionUnique | govatar.go:108 | A path has exactly one extension in that sense, so `Ext` is fully determined by it. |
| FilePath.ExtOfSuffix | govatar.go:108 | Appending a dotted suffix without further dots or slashes makes that suffix the extension, whatever comes before. |
| FilePath.ExtOfLower | govatar.go:108 | Taking the extension commutes with `strings.ToLower`. |
| Image.Rect | govatar.go:121 | `image.Rect` yields a well-formed rectangle whose width and height are the distances between the given coordinates, whichever order they come in. |
| Image.RectOfOrdered | govatar.go:121 | Coordinates given in order, as `Rect(0, 0, 400, 400)` gives them, are kept unchanged as the minimum and maximum corners. |
| Image.RectSymmetric | govatar.go:121 | Swapping the two corners gives the same rectangle. |
| Image.NewRGBA | govatar.go:121 | A new canvas has the requested bounds and nothing drawn on it, that is, it is fully transparent. |
| Image.DrawOver | govatar.go:140 | Drawing a source over the whole canvas keeps the bounds and what was drawn before, and puts the source on top. |
| Image.DrawAllOverStacks | govatar.go:123-140 | A run of `draw.Over` calls keeps the bounds and stacks the sources on top of the earlier layers, in drawing order. |
| Rand.Rng.Intn | utils.go:7 | For a positive bound `n`, a draw lies in `[0, n)`; a bound of zero or less is excluded, since Go's `Intn` panics there. |
| FilePath.ToLower | govatar.go:108 | The lowered string has the same length, contains no A–Z, lowers each A–Z by 32, keeps every other ASCII character, and has dots and slashes exactly where the input has them. |
| FilePath.ToLowerIdempotent | govatar.go:108 | Lowering twice is lowering once. |
| FilePath.LowerRune | govatar.go:108 | Lower-casing maps '.' and '/' to themselves and nothing else to them. Any character it changes becomes ASCII. |
| FilePath.Join | govatar.go:178 | Joining a non-empty directory and a non-empty entry name gives a path one separator longer than the two together. |
| FilePath.JoinInjective | govatar.go:178 | The joined path is the directory, a slash, then the entry name, so within one directory distinct entries give distinct identifiers. |
| Sorting.SortBy | govatar.go:180 | Under a strict weak ordering, sorting returns a permutation of its input in which no element is less than an earlier one. |
| Sorting.SortedUnique | govatar.go:180 | Under a strict total ordering, two sorted permutations of the same list are equal, so the catalog order does not depend on the sorting algorithm or the listing order. |
| Catalog.GenderPath | govatar.go:153-160 | The gender directory name is non-empty exactly for MALE and FEMALE. |
| Catalog.JoinAll | govatar.go:176-179 | There is one identifier per directory entry. |
| Catalog.AssetsList | govatar.go:171-182 | `mustAssetsList(dir)` has exactly one identifier per directory entry, is a permutation of the joined `dir/entry` names, and is sorted under the comparator. |
| Catalog.AssetsListMembers | govatar.go:176-179 | An identifier is listed exactly when it is `Join(dir, name)` for an entry `name` of the directory. |
| Catalog.PersonDirNames | govatar.go:163-167 | The concatenated directory names are `data/male/{clothes,eye,face,hair,mouth}` and `data/female/{clothes,eye,face,hair,mouth}`. |
| Catalog.GetPerson | govatar.go:152-169 | For MALE and FEMALE, the five lists are read from `data/<gender>/clothes`, `eye`, `face`, `hair` and `mouth`. |
| Catalog.Init | govatar.go:52-55 | The background list is the sorted asset list of `data/background`, and the record for each supported gender is `getPerson` of that gender, so `male` and `female` are not swapped. The store can serve both genders exactly when none of the eleven asset directories is empty. |
| Output.FormatFor | govatar.go:108-116 | Given the path's extension, JPEG (quality 80) is chosen exactly when the lower-cased extension is `.jpeg` or `.jpg`, GIF exactly when it is `.gif`, and PNG otherwise. |
| Output.FormatIgnoresCase | govatar.go:108 | A path and its lower-cased form select the same format. |
| Output.FormatOfTestFileNames | govatar_test.go:62-66 | For any base name, `.jpeg` and `.jpg` give JPEG 80, `.png` and `.xyz` give PNG, and `.gif` gives GIF. Upper-case `.JPG` and `.GIF` behave like their lower-case forms. |
| Output.NoExtensionMeansPng | govatar.go:113-114 | A path without a dot is saved as PNG. |
| Output.GenerateFileForUsername | govatar.go:92-99 | An unsupported gender fails with `ErrUnsupportedGender`. For a supported gender the call succeeds exactly when `GenerateForUsername` reports no error; a failure carries that same error, so nothing is saved. On success the saved image is the generated avatar, complete with six layers and 400×400, at the path in the format its extension selects. |
| Output.GenerateFile | govatar.go:66-72 | Same contract, with the generation keyed by the text of the current time: success exactly when generation reports no error, that error otherwise, and the generated avatar saved on success. |

Two facts need no member of their own, because every value in the model is
immutable and every operation is a pure function. `RandString` cannot modify
its slice. Repeated calls with equal inputs give equal results: the seed,
the six picks and the image.

## Left out

- Image decoding, encoding and pixel blending (`image.Decode`, `draw.Draw`
  with `draw.Over`, the JPEG/GIF/PNG encoders) are library code. Decoding is
  the `decode` parameter, and a canvas records the images blended onto it
  instead of pixels.
- Go's `math/rand` algorithm (`rand.NewSource`, `rand.New`, `Intn`) is not
  modelled. Only its seed-determined, in-range draw is, so the test that
  different usernames give different images cannot be stated as a theorem.
- `randStringSliceItem` is not part of this model's source. It is taken to
  index its slice with one `Intn(len(slice))` draw on the given generator.
- `naturalSort` is not part of this model's source. It is the `less`
  parameter, required to be a strict weak ordering as `sort.Sort` demands.
- Sorting.SortBy: states permutation and sortedness only. Among elements the
  comparator treats as equivalent, its order is insertion sort's, which Go's
  unstable `sort.Sort` need not match. Under a strict total order
  `SortedUnique` shows the two agree.
- FilePath.Join: `filepath.Clean` is not applied. It changes nothing for the
  clean relative directories and single entry names used here.
- FilePath.LowerRune: only the code points whose lower case is ASCII are
  lowered: A–Z, U+0130 and U+212A. Any other code point is left as it is.
  Its real lower case is not ASCII either, so the dispatch, which compares
  with ASCII literals, is unaffected. Invalid UTF-8 bytes are not modelled,
  since paths are sequences of code points.
- File and embedded-FS I/O are not modelled: `os.Create` and `Close` in
  `saveToFile`, encoder write errors, `mustAsset`, and the panics of
  `fs.ReadDir`. The file system is the `readDir` parameter, and saving yields
  a `SaveRequest`.
- `time.Now()` and `rand.Seed` in `init` are wall-clock entropy. The
  timestamp text is the `now` parameter.
- The `h.Write` error branch of `GenerateForUsername` cannot fire for FNV,
  so hashing is total.
- Platform: Go's `int` is modelled as 64 bits and paths use `/` as the only
  separator, as on 64-bit Unix platforms. On 32-bit platforms `int` is 32
  bits wide, and the overflow inputs under "## Findings" would differ. On
  Windows `filepath.Ext` also stops at `\`.
- `Gender` is an unbounded integer. The code only compares it with 0 and 1,
  so its width does not matter.
- server/main.go (HTTP handler) and govatar/main.go (command-line wiring)
  are plumbing around the library.
- The test helpers in govatar_test.go compare decoded pixels and are
  test-only.

## Findings

| source | as written | input that shows it | evidently intended | confidence | as-written member | corrected member |
|---|---|---|---|---|---|---|
| utils.go:7 | `min + rand.Intn(max-min)` computes the width `max - min` in wrapping 64-bit `int` | `RandInt(math.MinInt64, math.MaxInt64)`: the width wraps to -1 and `Intn` panics, although the range is non-empty. `RandInt(math.MaxInt64, math.MinInt64)`: the width wraps to 1 and `MaxInt64` is returned. | compute the width without overflow, accept every `min < max`, and return a value in `[min, max)` | medium, not executed | Utils.RandIntWideRangeRejected | Utils.RandIntExact |

`RandString` uses the corrected `RandIntExact`. Its width `len(slice)` never
overflows, and by `Utils.RandIntExactAgrees` both versions give the same
result there.
