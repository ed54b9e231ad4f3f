/** Values shared by every component of the model. Times are integer nanoseconds. */
module Prelude {

  datatype Option<+T> = None | Some(value: T)

  const SECOND: int := 1_000_000_000
  const MILLISECOND: int := 1_000_000

  const INT64_LIMIT: int := 0x8000_0000_0000_0000

  type uint64 = n: nat | n < 0x1_0000_0000_0000_0000

  /** Go's `int64(u)`: two's-complement reinterpretation of an unsigned value. */
  function ToInt64(u: uint64): (r: int)
    ensures -INT64_LIMIT <= r < INT64_LIMIT && (r == u || r + 0x1_0000_0000_0000_0000 == u)
  {
    if u < INT64_LIMIT then u else u - 0x1_0000_0000_0000_0000
  }
}
