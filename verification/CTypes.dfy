/** Limits of the C types and bytes as numbers. */
module CTypes {
  const INT_MAX := 0x7FFF_FFFF
  const SIZE_MAX := 0xFFFF_FFFF_FFFF_FFFF

  type Octet = n: int | 0 <= n < 256 witness 0
}
