/** Layer selection and compositing: `randomAvatar` and `drawImg` of
    govatar.go. Reading an asset's bytes and decoding them (`mustAsset`, then
    `image.Decode`) is the parameter `decode`, which yields the decoded image
    or the decoder's error text. */
module Avatar {
  import opened Basics
  import opened Rand
  import opened Image
  import opened Catalog

  /** The errors a generation call can return. */
  datatype Error = ErrUnsupportedGender | DecodeError(reason: string)

  /** The side of every avatar, in pixels. */
  const AVATAR_SIZE: int := 400

  /** `image.Rect(0, 0, 400, 400)`, the bounds of every avatar canvas. */
  function AvatarBounds(): (r: Rectangle)
    ensures r.min == Point(0, 0)
    ensures r.Dx() == AVATAR_SIZE && r.Dy() == AVATAR_SIZE && !r.Empty()
  {
    Rect(0, 0, AVATAR_SIZE, AVATAR_SIZE)
  }

  /** `drawImg(dst, asset, err)`: once an error has occurred it is passed on
      and nothing is drawn; otherwise the asset is decoded and blended over
      the canvas, or the decoder's error is returned with the canvas
      untouched. */
  function DrawImg<Img>(decode: string -> Result<Img, string>, dst: Canvas<Img>, asset: string, err: Option<Error>)
    : (r: (Canvas<Img>, Option<Error>))
    ensures r.0.bounds == dst.bounds
    ensures err.Some? ==> r == (dst, err)
    ensures err.None? ==> (r.1.None? <==> decode(asset).Success?)
    ensures err.None? && decode(asset).Success? ==> r.0.layers == dst.layers + [decode(asset).value]
    ensures err.None? && decode(asset).Failure? ==> r == (dst, Some(DecodeError(decode(asset).error)))
  {
    if err.Some? then (dst, err)
    else match decode(asset)
      case Failure(reason) => (dst, Some(DecodeError(reason)))
      case Success(src) => (DrawOver(dst, src), None)
  }

  /** `painted` is what drawing a prefix of `assets` leaves behind: the i-th
      painted image is the successful decoding of the i-th asset. */
  ghost predicate DecodedPrefix<Img>(decode: string -> Result<Img, string>, assets: seq<string>, painted: seq<Img>) {
    |painted| <= |assets| &&
    forall i :: 0 <= i < |painted| ==> decode(assets[i]) == Success(painted[i])
  }

  /** A run of `drawImg` calls over `assets`, threading the error from one
      call to the next. */
  function PaintAll<Img>(decode: string -> Result<Img, string>, dst: Canvas<Img>, assets: seq<string>, err: Option<Error>)
    : (r: (Canvas<Img>, Option<Error>))
    ensures r.0.bounds == dst.bounds
    ensures err.Some? ==> r == (dst, err)
    ensures err.None? ==> |dst.layers| <= |r.0.layers| && r.0.layers[..|dst.layers|] == dst.layers
    ensures err.None? ==> DecodedPrefix(decode, assets, r.0.layers[|dst.layers|..])
    ensures err.None? ==> (r.1.None? <==> |r.0.layers| == |dst.layers| + |assets|)
    ensures err.None? && r.1.Some? ==>
              var failed := assets[|r.0.layers| - |dst.layers|];
              decode(failed).Failure? && r.1 == Some(DecodeError(decode(failed).error))
    decreases |assets|
  {
    if |assets| == 0 then (dst, err)
    else
      var (dst', err') := DrawImg(decode, dst, assets[0], err);
      var r := PaintAll(decode, dst', assets[1..], err');
      assert err.None? && err'.None? ==> r.0.layers[|dst.layers|..] == [decode(assets[0]).value] + r.0.layers[|dst'.layers|..];
      r
  }

  /** The compositor: paint `assets` in order, background first, onto a
      fresh 400x400 canvas. */
  function Compose<Img>(decode: string -> Result<Img, string>, assets: seq<string>): (r: (Canvas<Img>, Option<Error>))
    ensures r.0.bounds == AvatarBounds()
    ensures DecodedPrefix(decode, assets, r.0.layers)
    ensures r.1.None? <==> |r.0.layers| == |assets|
    ensures r.1.None? <==> forall i :: 0 <= i < |assets| ==> decode(assets[i]).Success?
    ensures r.1.Some? ==> decode(assets[|r.0.layers|]).Failure? &&
                          r.1 == Some(DecodeError(decode(assets[|r.0.layers|]).error))
  {
    var r := PaintAll(decode, NewRGBA(AvatarBounds()), assets, None);
    assert r.0.layers[0..] == r.0.layers;
    r
  }

  /** One layer per category, named in drawing and painting order. */
  datatype Selection = Selection(background: string, face: string, clothes: string,
                                 mouth: string, hair: string, eye: string)
  {
    /** The selected identifiers, background first and eye last. */
    function Layers(): seq<string> {
      [background, face, clothes, mouth, hair, eye]
    }
  }

  /** The category lists in the order `randomAvatar` draws from them. */
  function Categories(background: seq<string>, p: Person): seq<seq<string>> {
    [background, p.face, p.clothes, p.mouth, p.hair, p.eye]
  }

  /** One draw from each list, in order, threading the generator state. */
  function DrawAll<S(!new)>(rng: Rng<S>, s: S, lists: seq<seq<string>>): (r: (seq<string>, S))
    requires rng.Valid()
    requires forall k :: 0 <= k < |lists| ==> |lists[k]| > 0
    ensures |r.0| == |lists|
    ensures forall k :: 0 <= k < |lists| ==> r.0[k] in lists[k]
    decreases |lists|
  {
    if |lists| == 0 then ([], s)
    else
      var (x, s1) := PickItem(rng, s, lists[0]);
      var (xs, s2) := DrawAll(rng, s1, lists[1..]);
      ([x] + xs, s2)
  }

  /** The layer selector: the six draws of `randomAvatar` from a generator
      seeded with `seed`. */
  function Select<S(!new)>(rng: Rng<S>, seed: int64, background: seq<string>, p: Person): (sel: Selection)
    requires rng.Valid()
    requires |background| > 0 && p.Drawable()
    ensures sel.background in background
    ensures sel.face in p.face && sel.clothes in p.clothes && sel.mouth in p.mouth
    ensures sel.hair in p.hair && sel.eye in p.eye
  {
    var picks := DrawAll(rng, rng.source(seed), Categories(background, p)).0;
    Selection(picks[0], picks[1], picks[2], picks[3], picks[4], picks[5])
  }

  /** `randomAvatar(p, seed)` as written: a fresh generator and canvas, then
      six `drawImg` calls, each fed a fresh draw (the draw is evaluated
      before `drawImg` runs, so it happens even after an error). The canvas
      is returned together with the error, painted up to the first failure. */
  function RandomAvatar<S(!new), Img>(rng: Rng<S>, decode: string -> Result<Img, string>,
                                     background: seq<string>, p: Person, seed: int64)
    : (r: (Canvas<Img>, Option<Error>))
    requires rng.Valid()
    requires |background| > 0 && p.Drawable()
    ensures r.0.bounds == AvatarBounds()
    ensures |r.0.layers| <= 6
    ensures r.1.Some? ==> r.1.value.DecodeError?
  {
    var s0 := rng.source(seed);
    var avatar := NewRGBA(AvatarBounds());
    var (a1, s1) := PickItem(rng, s0, background);
    var (c1, e1) := DrawImg(decode, avatar, a1, None);
    var (a2, s2) := PickItem(rng, s1, p.face);
    var (c2, e2) := DrawImg(decode, c1, a2, e1);
    var (a3, s3) := PickItem(rng, s2, p.clothes);
    var (c3, e3) := DrawImg(decode, c2, a3, e2);
    var (a4, s4) := PickItem(rng, s3, p.mouth);
    var (c4, e4) := DrawImg(decode, c3, a4, e3);
    var (a5, s5) := PickItem(rng, s4, p.hair);
    var (c5, e5) := DrawImg(decode, c4, a5, e4);
    var (a6, s6) := PickItem(rng, s5, p.eye);
    DrawImg(decode, c5, a6, e5)
  }

  /** `DrawAll` on a list with a first element: one pick, then the rest. */
  lemma DrawAllCons<S(!new)>(rng: Rng<S>, s: S, first: seq<string>, rest: seq<seq<string>>)
    requires rng.Valid()
    requires |first| > 0 && forall k :: 0 <= k < |rest| ==> |rest[k]| > 0
    ensures forall k :: 0 <= k < |[first] + rest| ==> |([first] + rest)[k]| > 0
    ensures DrawAll(rng, s, [first] + rest) ==
            var (x, s1) := PickItem(rng, s, first);
            var (xs, s2) := DrawAll(rng, s1, rest);
            ([x] + xs, s2)
  {
    assert ([first] + rest)[1..] == rest;
  }

  /** `PaintAll` on a list with a first asset: one `drawImg`, then the rest. */
  lemma PaintAllCons<Img>(decode: string -> Result<Img, string>, dst: Canvas<Img>, first: string, rest: seq<string>, err: Option<Error>)
    ensures PaintAll(decode, dst, [first] + rest, err) ==
            var (dst', err') := DrawImg(decode, dst, first, err);
            PaintAll(decode, dst', rest, err')
  {
    assert ([first] + rest)[1..] == rest;
  }

  /** The selector's six picks, spelled out as a chain of single draws. */
  lemma SelectUnfolded<S(!new)>(rng: Rng<S>, seed: int64, background: seq<string>, p: Person)
    requires rng.Valid()
    requires |background| > 0 && p.Drawable()
    ensures var s0 := rng.source(seed);
            var (a1, s1) := PickItem(rng, s0, background);
            var (a2, s2) := PickItem(rng, s1, p.face);
            var (a3, s3) := PickItem(rng, s2, p.clothes);
            var (a4, s4) := PickItem(rng, s3, p.mouth);
            var (a5, s5) := PickItem(rng, s4, p.hair);
            var (a6, s6) := PickItem(rng, s5, p.eye);
            Select(rng, seed, background, p).Layers() == [a1, a2, a3, a4, a5, a6]
  {
    var s0 := rng.source(seed);
    var (a1, s1) := PickItem(rng, s0, background);
    var (a2, s2) := PickItem(rng, s1, p.face);
    var (a3, s3) := PickItem(rng, s2, p.clothes);
    var (a4, s4) := PickItem(rng, s3, p.mouth);
    var (a5, s5) := PickItem(rng, s4, p.hair);
    var none: seq<seq<string>> := [];
    DrawAllCons(rng, s5, p.eye, none);
    DrawAllCons(rng, s4, p.hair, [p.eye]);
    DrawAllCons(rng, s3, p.mouth, [p.hair, p.eye]);
    DrawAllCons(rng, s2, p.clothes, [p.mouth, p.hair, p.eye]);
    DrawAllCons(rng, s1, p.face, [p.clothes, p.mouth, p.hair, p.eye]);
    DrawAllCons(rng, s0, background, [p.face, p.clothes, p.mouth, p.hair, p.eye]);
    assert [p.eye] == [p.eye] + none;
    assert Categories(background, p) == [background] + [p.face, p.clothes, p.mouth, p.hair, p.eye];
  }

  /** The compositor on six layers, spelled out as a chain of `drawImg`
      calls. */
  lemma ComposeUnfolded<Img>(decode: string -> Result<Img, string>, a1: string, a2: string, a3: string,
                             a4: string, a5: string, a6: string)
    ensures var (c1, e1) := DrawImg(decode, NewRGBA(AvatarBounds()), a1, None);
            var (c2, e2) := DrawImg(decode, c1, a2, e1);
            var (c3, e3) := DrawImg(decode, c2, a3, e2);
            var (c4, e4) := DrawImg(decode, c3, a4, e3);
            var (c5, e5) := DrawImg(decode, c4, a5, e4);
            Compose(decode, [a1, a2, a3, a4, a5, a6]) == DrawImg(decode, c5, a6, e5)
  {
    var (c1, e1) := DrawImg(decode, NewRGBA(AvatarBounds()), a1, None);
    var (c2, e2) := DrawImg(decode, c1, a2, e1);
    var (c3, e3) := DrawImg(decode, c2, a3, e2);
    var (c4, e4) := DrawImg(decode, c3, a4, e3);
    var (c5, e5) := DrawImg(decode, c4, a5, e4);
    var nothing: seq<string> := [];
    PaintAllCons(decode, NewRGBA(AvatarBounds()), a1, [a2, a3, a4, a5, a6], None);
    PaintAllCons(decode, c1, a2, [a3, a4, a5, a6], e1);
    PaintAllCons(decode, c2, a3, [a4, a5, a6], e2);
    PaintAllCons(decode, c3, a4, [a5, a6], e3);
    PaintAllCons(decode, c4, a5, [a6], e4);
    PaintAllCons(decode, c5, a6, nothing, e5);
    assert [a6] == [a6] + nothing;
    assert [a1, a2, a3, a4, a5, a6] == [a1] + [a2, a3, a4, a5, a6];
  }

  /** `randomAvatar` is the layer selector followed by the compositor:
      interleaving each draw with the painting of the previous layer changes
      nothing, because painting never touches the generator. */
  lemma RandomAvatarSelectsThenComposes<S(!new), Img>(rng: Rng<S>, decode: string -> Result<Img, string>,
                                                     background: seq<string>, p: Person, seed: int64)
    requires rng.Valid()
    requires |background| > 0 && p.Drawable()
    ensures RandomAvatar(rng, decode, background, p, seed) == Compose(decode, Select(rng, seed, background, p).Layers())
  {
    SelectUnfolded(rng, seed, background, p);
    var l := Select(rng, seed, background, p).Layers();
    ComposeUnfolded(decode, l[0], l[1], l[2], l[3], l[4], l[5]);
    assert l == [l[0], l[1], l[2], l[3], l[4], l[5]];
  }

  /** The length of each list. */
  function Lengths(lists: seq<seq<string>>): (ns: seq<int>)
    ensures |ns| == |lists|
  {
    seq(|lists|, k requires 0 <= k < |lists| => |lists[k]|)
  }

  /** `DrawAll` asks the generator for exactly one draw per list, bounded by
      that list's length and in list order, and picks the drawn index. */
  lemma {:induction false} DrawAllFollowsStream<S(!new)>(rng: Rng<S>, s: S, lists: seq<seq<string>>)
    requires rng.Valid()
    requires forall k :: 0 <= k < |lists| ==> |lists[k]| > 0
    ensures forall k :: 0 <= k < |lists| ==>
              DrawAll(rng, s, lists).0[k] == lists[k][Stream(rng, s, Lengths(lists))[k]]
    decreases |lists|
  {
    if |lists| > 0 {
      var (x, s1) := PickItem(rng, s, lists[0]);
      DrawAllFollowsStream(rng, s1, lists[1..]);
      assert Lengths(lists)[1..] == Lengths(lists[1..]);
      var picks := DrawAll(rng, s, lists).0;
      var idx := Stream(rng, s, Lengths(lists));
      forall k | 0 <= k < |lists|
        ensures picks[k] == lists[k][idx[k]]
      {
        if k > 0 {
          assert picks[k] == DrawAll(rng, s1, lists[1..]).0[k - 1];
          assert idx[k] == Stream(rng, s1, Lengths(lists[1..]))[k - 1];
          assert lists[1..][k - 1] == lists[k];
        }
      }
    }
  }

  /** `randomAvatar` makes exactly six draws, bounded by the lengths of the
      background, face, clothes, mouth, hair and eye lists in that order; the
      k-th layer is the element at the k-th drawn index of the k-th list. */
  lemma SelectDrawOrder<S(!new)>(rng: Rng<S>, seed: int64, background: seq<string>, p: Person)
    requires rng.Valid()
    requires |background| > 0 && p.Drawable()
    ensures var idx := Stream(rng, rng.source(seed),
                              [|background|, |p.face|, |p.clothes|, |p.mouth|, |p.hair|, |p.eye|]);
            var sel := Select(rng, seed, background, p);
            && sel.background == background[idx[0]]
            && sel.face == p.face[idx[1]]
            && sel.clothes == p.clothes[idx[2]]
            && sel.mouth == p.mouth[idx[3]]
            && sel.hair == p.hair[idx[4]]
            && sel.eye == p.eye[idx[5]]
  {
    var cats := Categories(background, p);
    DrawAllFollowsStream(rng, rng.source(seed), cats);
    assert Lengths(cats) == [|background|, |p.face|, |p.clothes|, |p.mouth|, |p.hair|, |p.eye|];
  }

  /** The background comes first and from the shared list, so it is the same
      for both genders (indeed for any person record) at a given seed. */
  lemma BackgroundIgnoresPerson<S(!new)>(rng: Rng<S>, seed: int64, background: seq<string>, p1: Person, p2: Person)
    requires rng.Valid()
    requires |background| > 0 && p1.Drawable() && p2.Drawable()
    ensures Select(rng, seed, background, p1).background == Select(rng, seed, background, p2).background
    ensures Select(rng, seed, background, p1).background == PickItem(rng, rng.source(seed), background).0
  {
    SelectUnfolded(rng, seed, background, p1);
    SelectUnfolded(rng, seed, background, p2);
  }
}
