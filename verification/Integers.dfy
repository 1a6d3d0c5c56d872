/** The machine integers of the source, as ranges of mathematical ones. */
module Integers {
  const I32_MIN: int := -0x8000_0000
  const I32_MAX: int := 0x7FFF_FFFF
  const U32: int := 0x1_0000_0000
  const U64: int := 0x1_0000_0000_0000_0000

  type i32 = x: int | -0x8000_0000 <= x <= 0x7FFF_FFFF
  type u64 = x: int | 0 <= x < 0x1_0000_0000_0000_0000

  predicate IsI32(x: int) {
    I32_MIN <= x <= I32_MAX
  }

  /** Release-build arithmetic on i32: two's complement wrap-around. */
  function Wrap32(x: int): (r: int)
    ensures IsI32(r)
    ensures (r - x) % U32 == 0
    ensures IsI32(x) ==> r == x
  {
    (x - I32_MIN) % U32 + I32_MIN
  }
}
