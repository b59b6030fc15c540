/** Optional values, error codes, bytes and the width of the machine's integers. */
module Basics {

  datatype Option<T> = None | Some(value: T)

  const ENOENT: int := 2
  const EIO: int := 5

  type byte = x: int | 0 <= x < 256
  type Bytes = seq<byte>

  /** No slot, buffer or item. */
  const NULLIDX: int := -1

  const TWO31: int := 0x8000_0000
  const TWO32: int := 0x1_0000_0000
  const INT32_MAX: int := TWO31 - 1
  const INT32_MIN: int := -TWO31

  predicate Int32(x: int)
  {
    INT32_MIN <= x <= INT32_MAX
  }

  /** Two's complement wrap-around to 32 bits. */
  function Wrap32(x: int): (r: int)
    ensures Int32(r)
  {
    (x + TWO31) % TWO32 - TWO31
  }
}
