/** The exported helpers of utils.go. Both draw from Go's process-wide
    generator; here its state is an explicit input and the next state an
    explicit output. Go's `int` is taken to be 64 bits wide, as on
    64-bit platforms, so `max - min` and `min + r` wrap around modulo 2^64. */
module Utils {
  import opened Basics
  import opened Rand

  /** `RandInt(min, max)`: `min + Intn(max - min)` in 64-bit arithmetic.
      `Intn` panics unless its (wrapped) argument is positive, which is the
      precondition. The result is `min` plus a draw below the wrapped width,
      modulo 2^64; for ordered bounds it lies in `[min, max)`. */
  function RandInt<S(!new)>(rng: Rng<S>, s: S, min: int64, max: int64): (r: (int64, S))
    requires rng.Valid()
    requires 0 < Wrap64(max as int - min as int)
    ensures min < max ==> min <= r.0 < max
    ensures (r.0 as int - min as int) % TWO_TO_THE_64 < Wrap64(max as int - min as int) as int
  {
    var (d, s') := rng.Intn(s, Wrap64(max as int - min as int) as int);
    (Wrap64(min as int + d), s')
  }

  /** A one-wide range always yields its lower bound, including at the top of
      the int64 range, where `k + 1` wraps to the minimum. */
  lemma RandIntUnitRange<S(!new)>(rng: Rng<S>, s: S, k: int64)
    requires rng.Valid()
    ensures 0 < Wrap64(Wrap64(k as int + 1) as int - k as int)
    ensures RandInt(rng, s, k, Wrap64(k as int + 1)).0 == k
  {
    if k as int == MAX_INT64 {
      assert Wrap64(k as int + 1) as int == MIN_INT64;
    } else {
      assert Wrap64(k as int + 1) as int == k as int + 1;
    }
    assert Wrap64(Wrap64(k as int + 1) as int - k as int) == 1;
  }

  /** As written, `RandInt` panics on some ordered bounds: the width of
      `[MinInt64, MaxInt64)` overflows `int` and wraps to -1, so `Intn`
      rejects it although the range is far from empty. */
  lemma RandIntWideRangeRejected()
    ensures (MIN_INT64 as int64) < (MAX_INT64 as int64)
    ensures Wrap64(MAX_INT64 - MIN_INT64) as int == -1
  {
  }

  /** As written, reversed bounds can slip past `Intn`'s guard: the width of
      `RandInt(MaxInt64, MinInt64)` wraps to 1, and the result is `MaxInt64`,
      which is not below `max`. */
  lemma RandIntReversedBoundsAccepted<S(!new)>(rng: Rng<S>, s: S)
    requires rng.Valid()
    ensures 0 < Wrap64(MIN_INT64 - MAX_INT64)
    ensures RandInt(rng, s, MAX_INT64 as int64, MIN_INT64 as int64).0 as int == MAX_INT64
  {
    assert Wrap64(MIN_INT64 - MAX_INT64) as int == 1;
    assert Wrap64(MAX_INT64) as int == MAX_INT64;
  }

  /** `RandInt` as evidently intended: the width `max - min` is computed
      exactly (as an unsigned 64-bit value would hold it), so every ordered
      pair of bounds is accepted and the result always lies in `[min, max)`. */
  function RandIntExact<S(!new)>(rng: Rng<S>, s: S, min: int64, max: int64): (r: (int64, S))
    requires rng.Valid()
    requires min < max
    ensures min <= r.0 < max
  {
    var (d, s') := rng.Intn(s, max as int - min as int);
    ((min as int + d) as int64, s')
  }

  /** Where the width does not overflow, the corrected `RandIntExact` and the
      written `RandInt` make the same draw and return the same value. */
  lemma RandIntExactAgrees<S(!new)>(rng: Rng<S>, s: S, min: int64, max: int64)
    requires rng.Valid()
    requires min < max && max as int - min as int <= MAX_INT64
    ensures 0 < Wrap64(max as int - min as int)
    ensures RandIntExact(rng, s, min, max) == RandInt(rng, s, min, max)
  {
  }

  /** `RandString(slice)`: `slice[RandInt(0, len(slice))]`. Go slice lengths
      fit in an `int`; an empty slice makes `Intn(0)` panic. The width
      `len(slice) - 0` never overflows, so `RandIntExact` stands in for
      `RandInt` here (see `RandIntExactAgrees`). */
  function RandString<S(!new)>(rng: Rng<S>, s: S, slice: seq<string>): (r: (string, S))
    requires rng.Valid()
    requires 0 < |slice| <= MAX_INT64
    ensures exists i :: 0 <= i < |slice| && r.0 == slice[i]
  {
    var (i, s') := RandIntExact(rng, s, 0, |slice| as int64);
    (slice[i], s')
  }

  /** `RandString` and the per-generator `randStringSliceItem` agree: given the
      same generator state they make the same single draw and pick the same
      element. */
  lemma RandStringIsPickItem<S(!new)>(rng: Rng<S>, s: S, slice: seq<string>)
    requires rng.Valid()
    requires 0 < |slice| <= MAX_INT64
    ensures RandString(rng, s, slice) == PickItem(rng, s, slice)
  {
  }
}
