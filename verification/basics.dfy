/** Go value types the model needs: fixed-width integers, bytes, and the
    nil-or-value shapes that Go expresses with `error` and interface results. */
module Basics {

  const TWO_TO_THE_32: int := 0x1_0000_0000
  const TWO_TO_THE_64: int := 0x1_0000_0000_0000_0000
  const MIN_INT64: int := -0x8000_0000_0000_0000
  const MAX_INT64: int := 0x7fff_ffff_ffff_ffff

  /** Go's `byte` (uint8). */
  type byte = bv8

  /** Go's `int64`; Go's `int` is taken to be 64 bits wide. */
  newtype int64 = x: int | -0x8000_0000_0000_0000 <= x < 0x8000_0000_0000_0000

  /** Two's-complement wrap-around of an exact integer into int64, which is
      what Go's `+` and `-` on `int` do on overflow. */
  function Wrap64(x: int): (r: int64)
    ensures (r as int - x) % TWO_TO_THE_64 == 0
    ensures MIN_INT64 <= x <= MAX_INT64 ==> r as int == x
  {
    (((x - MIN_INT64) % TWO_TO_THE_64) + MIN_INT64) as int64
  }

  /** A Go value that may be nil (an `error`, an `image.Image`). */
  datatype Option<+T> = None | Some(value: T)

  /** A computation that yields a value or an error. */
  datatype Result<+T, +E> = Success(value: T) | Failure(error: E)
}
