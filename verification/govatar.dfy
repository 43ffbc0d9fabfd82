/** The public entry points of govatar.go: `GenerateForUsername`, which
    seeds the layer selection with the FNV-1a hash of the username, and
    `Generate`, which does the same with a textual timestamp. The store built
    by `init`, the generator and the decoder are parameters. */
module Govatar {
  import opened Basics
  import Fnv
  import opened Rand
  import opened Image
  import opened Catalog
  import opened Avatar

  /** What a generation call returns: a possibly nil image and a possibly
      nil error. */
  datatype Generated<Img> = Generated(image: Option<Canvas<Img>>, err: Option<Error>)

  /** `int64(h.Sum32())` after writing the username's bytes into a fresh
      `fnv.New32a()`: a non-negative seed below 2^32. */
  function Seed(username: seq<byte>): (seed: int64)
    ensures 0 <= seed as int < TWO_TO_THE_32
    ensures seed as int == Fnv.Sum32a(username) as int
  {
    Fnv.Sum32a(username) as int as int64
  }

  /** `GenerateForUsername(gender, username)`. An unsupported gender yields
      a nil image and `ErrUnsupportedGender`; otherwise the avatar of the
      gender's person record, seeded from the username, is returned together
      with any decoding error. */
  function GenerateForUsername<S(!new), Img>(store: Store, rng: Rng<S>, decode: string -> Result<Img, string>,
                                            gender: Gender, username: seq<byte>)
    : (r: Generated<Img>)
    requires rng.Valid()
    requires Supported(gender) ==> store.ReadyFor(gender)
    ensures r.image.None? <==> !Supported(gender)
    ensures r.err == Some(ErrUnsupportedGender) <==> !Supported(gender)
    ensures r.image.Some? ==> r.image.value.bounds == AvatarBounds()
    ensures r.image.Some? ==> r.image.value.bounds.Dx() == 400 && r.image.value.bounds.Dy() == 400
  {
    var seed := Seed(username);
    if gender == MALE then
      var (avatar, err) := RandomAvatar(rng, decode, store.background, store.male, seed);
      Generated(Some(avatar), err)
    else if gender == FEMALE then
      var (avatar, err) := RandomAvatar(rng, decode, store.background, store.female, seed);
      Generated(Some(avatar), err)
    else
      Generated(None, Some(ErrUnsupportedGender))
  }

  /** `Generate(gender)`: `GenerateForUsername` keyed by the text of the
      current time, here the parameter `now`. */
  function Generate<S(!new), Img>(store: Store, rng: Rng<S>, decode: string -> Result<Img, string>,
                                 gender: Gender, now: seq<byte>)
    : (r: Generated<Img>)
    requires rng.Valid()
    requires Supported(gender) ==> store.ReadyFor(gender)
    ensures r.image.None? <==> !Supported(gender)
    ensures r.err == Some(ErrUnsupportedGender) <==> !Supported(gender)
    ensures r.image.Some? ==> r.image.value.bounds == AvatarBounds()
  {
    GenerateForUsername(store, rng, decode, gender, now)
  }

  /** For a supported gender the result is the composition of the layers the
      seeded selector picks from that gender's lists and the shared
      backgrounds; each painted layer is the decoding of the selected asset at
      its position, and an error is the decoding error of the first layer
      that failed. */
  lemma GenerateForUsernameComposesSelection<S(!new), Img>(store: Store, rng: Rng<S>,
                                                          decode: string -> Result<Img, string>,
                                                          gender: Gender, username: seq<byte>)
    requires rng.Valid()
    requires Supported(gender) && store.ReadyFor(gender)
    ensures var sel := Select(rng, Seed(username), store.background, store.PersonFor(gender));
            var r := GenerateForUsername(store, rng, decode, gender, username);
            && sel.background in store.background
            && r.image == Some(Compose(decode, sel.Layers()).0)
            && r.err == Compose(decode, sel.Layers()).1
            && DecodedPrefix(decode, sel.Layers(), r.image.value.layers)
            && (r.err.None? <==> |r.image.value.layers| == 6)
  {
    RandomAvatarSelectsThenComposes(rng, decode, store.background, store.PersonFor(gender), Seed(username));
  }

  /** An unsupported gender is rejected before anything else is consulted:
      the result is the same whatever the store, generator, decoder and
      username. */
  lemma UnsupportedGenderIgnoresEverything<S(!new), T(!new), Img>(
    store1: Store, rng1: Rng<S>, decode1: string -> Result<Img, string>, username1: seq<byte>,
    store2: Store, rng2: Rng<T>, decode2: string -> Result<Img, string>, username2: seq<byte>,
    gender: Gender)
    requires rng1.Valid() && rng2.Valid()
    requires !Supported(gender)
    ensures GenerateForUsername(store1, rng1, decode1, gender, username1)
         == GenerateForUsername(store2, rng2, decode2, gender, username2)
         == Generated(None, Some(ErrUnsupportedGender))
  {
  }

  /** The avatar depends on the username only through its 32-bit hash:
      usernames with equal hashes (in particular equal usernames) get equal
      selections and equal images, on every call. */
  lemma SameHashSameAvatar<S(!new), Img>(store: Store, rng: Rng<S>, decode: string -> Result<Img, string>,
                                        gender: Gender, u1: seq<byte>, u2: seq<byte>)
    requires rng.Valid()
    requires Supported(gender) ==> store.ReadyFor(gender)
    requires Fnv.Sum32a(u1) == Fnv.Sum32a(u2)
    ensures Seed(u1) == Seed(u2)
    ensures GenerateForUsername(store, rng, decode, gender, u1) == GenerateForUsername(store, rng, decode, gender, u2)
  {
  }

  /** Feeding the username's bytes in two chunks gives the same seed as
      feeding them at once, so the seed is a function of the byte string
      alone. */
  lemma SeedOfConcatenation(a: seq<byte>, b: seq<byte>)
    ensures Seed(a + b) as int == Fnv.Fold(Fnv.Sum32a(a), b) as int
  {
    Fnv.FoldAppend(Fnv.OFFSET_BASIS_32, a, b);
  }
}
