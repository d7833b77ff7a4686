/** The fixed-width unsigned integers of the original; arithmetic that wraps is written out with `%`. */
module Integers {
  const UINT8_LIMIT := 0x100
  const UINT16_LIMIT := 0x1_0000

  type uint8 = x: int | 0 <= x < UINT8_LIMIT
  type uint16 = x: int | 0 <= x < UINT16_LIMIT
}
