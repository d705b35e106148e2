/** Fixed-width unsigned integer types of the firmware (stdint.h), as subsets of int. */
module Stdint {
  const UINT8_MODULUS: int := 0x100
  const UINT16_MODULUS: int := 0x1_0000
  const UINT32_MODULUS: int := 0x1_0000_0000
  const UINT32_MAX: int := 0xFFFF_FFFF

  type uint8 = x: int | 0 <= x < UINT8_MODULUS
  type uint16 = x: int | 0 <= x < UINT16_MODULUS
  type uint32 = x: int | 0 <= x < UINT32_MODULUS
  type int8 = x: int | -0x80 <= x < 0x80

  /** A data byte; the firmware stores all link data as uint8_t. */
  type byte = uint8
}
