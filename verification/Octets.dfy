/** Bytes and 16-bit samples as bounded integers. */
module Octets {
  type byte = b: int | 0 <= b < 0x100
  type int16 = s: int | -0x8000 <= s < 0x8000
}
