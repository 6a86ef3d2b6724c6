/** Unsigned machine integers as bounded mathematical integers. */
module Words {
  const U32_LIMIT: int := 0x1_0000_0000
  const U32_MAX: int := 0xFFFF_FFFF
  const I32_MAX: int := 0x7FFF_FFFF

  type u8 = x: int | 0 <= x < 0x100
  type u16 = x: int | 0 <= x < 0x1_0000
  type u32 = x: int | 0 <= x < 0x1_0000_0000
  type u64 = x: int | 0 <= x < 0x1_0000_0000_0000_0000
  type i32 = x: int | -0x8000_0000 <= x < 0x8000_0000

  /** A value cast to `i32` with `as`: the low 32 bits, read as two's complement. */
  function AsI32(x: int): (r: i32)
    ensures (r - x) % U32_LIMIT == 0
  {
    var low := x % U32_LIMIT;
    if low <= I32_MAX then low else low - U32_LIMIT
  }
}
