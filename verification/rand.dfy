/** An abstract, seed-determined stream of bounded random draws, standing for
    Go's `math/rand` (`rand.New(rand.NewSource(seed))` and `Intn`). The
    generator's algorithm is not modelled: `source` turns a seed into an
    initial state and `intn` makes one draw, returning the drawn integer and
    the next state. Everything is a pure function, so equal seeds give equal
    streams. */
module Rand {
  import opened Basics

  datatype Rng<!S(!new)> = Rng(source: int64 -> S, intn: (S, int) -> (int, S))
  {
    /** The one promise `Intn(n)` makes for `n > 0`: its result lies in
        `[0, n)`. */
    ghost predicate Valid() {
      forall s: S, n: int :: 0 < n ==> 0 <= intn(s, n).0 < n
    }

    /** One draw from `[0, n)`; Go's `Intn` panics for `n <= 0`, hence the
        precondition. */
    function Intn(s: S, n: int): (r: (int, S))
      requires Valid() && 0 < n
      ensures 0 <= r.0 < n
    {
      intn(s, n)
    }
  }

  /** Pick an element of `slice` with one draw, as the generator-based
      `randStringSliceItem(rnd, slice)` does: index `rnd.Intn(len(slice))`. */
  function PickItem<S(!new)>(rng: Rng<S>, s: S, slice: seq<string>): (r: (string, S))
    requires rng.Valid() && |slice| > 0
    ensures r.0 in slice
  {
    var (i, s') := rng.Intn(s, |slice|);
    (slice[i], s')
  }

  /** The indices a generator in state `s` yields when asked, in turn, for
      one draw below each of `bounds`. */
  function Stream<S(!new)>(rng: Rng<S>, s: S, bounds: seq<int>): (r: seq<int>)
    requires rng.Valid()
    requires forall k :: 0 <= k < |bounds| ==> bounds[k] > 0
    ensures |r| == |bounds|
    ensures forall k :: 0 <= k < |bounds| ==> 0 <= r[k] < bounds[k]
    decreases |bounds|
  {
    if |bounds| == 0 then []
    else
      var (i, s') := rng.Intn(s, bounds[0]);
      [i] + Stream(rng, s', bounds[1..])
  }
}
