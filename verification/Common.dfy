/** Optional values, and the sizes the C types and units bring along. */
module Common {

  datatype Option<+T> = None | Some(value: T)

  /** One more than the largest 32-bit unsigned integer. */
  const WORD: nat := 0x1_0000_0000

  /** One more than the largest `int`. */
  const INT_LIMIT: nat := 0x8000_0000

  /** `NET_SOFTERROR` and `NET_HARDERROR`. */
  const SOFT_ERROR: int := -1
  const HARD_ERROR: int := -2

  /** Microseconds in a second. */
  const MILLION: nat := 1_000_000
}
