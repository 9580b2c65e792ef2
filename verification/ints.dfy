/** The fixed-width integer types that appear in the request parameters.
    Deserialisation guarantees the range, so each is a subset of `int`. */
module Ints {

  const MinI64: int := -0x8000_0000_0000_0000
  const MaxI64: int := 0x7FFF_FFFF_FFFF_FFFF

  predicate InI64(x: int) {
    MinI64 <= x <= MaxI64
  }

  type Int64 = x: int | InI64(x)
  type Uint64 = x: int | 0 <= x < 0x1_0000_0000_0000_0000
  type Uint16 = x: int | 0 <= x < 0x1_0000

  /** One octet: a byte of a decoded payload, or a `u8` parameter. */
  type Byte = x: int | 0 <= x < 0x100

  function Min(a: int, b: int): int {
    if a <= b then a else b
  }
}
