/** Kotlin's fixed-width integers. Only the places where the width is
    observable are modelled with it: `Long` timestamps (because
    `Long.MAX_VALUE` is used as a sort key) and the `Int` colour (because
    `0xFF6200EE.toInt()` wraps around). */
module Ints {

  const INT_MIN: int := -0x8000_0000
  const INT_MAX: int := 0x7FFF_FFFF
  const LONG_MIN: int := -0x8000_0000_0000_0000
  /** `Long.MAX_VALUE`. */
  const LONG_MAX: int := 0x7FFF_FFFF_FFFF_FFFF

  type Int32 = x: int | INT_MIN <= x <= INT_MAX
  type Int64 = x: int | LONG_MIN <= x <= LONG_MAX

  /** `Long.toInt()`: keeps the low 32 bits and reads them as a signed
      two's-complement number. */
  function ToInt32(x: int): (r: Int32)
    ensures (x - r) % 0x1_0000_0000 == 0
    ensures INT_MIN <= x <= INT_MAX ==> r == x
  {
    var low := x % 0x1_0000_0000;
    if low <= INT_MAX then low else low - 0x1_0000_0000
  }
}
