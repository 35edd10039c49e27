/** The primitive types the core shares: account ids, the fixed-width integers it stores and
    the `as u32` cast. */
module Primitives {
  type AccountId = int

  const U64_MAX: nat := 0xFFFF_FFFF_FFFF_FFFF
  const U32_MODULUS: nat := 0x1_0000_0000
  const U128_MAX: nat := 0xFFFF_FFFF_FFFF_FFFF_FFFF_FFFF_FFFF_FFFF

  type u64 = x: int | 0 <= x <= U64_MAX
  type u32 = x: int | 0 <= x < U32_MODULUS

  /** `value as u32`: truncation to the low 32 bits. */
  function AsU32(value: nat): (r: u32)
    ensures value < U32_MODULUS ==> r == value
    ensures r <= value
  {
    value % U32_MODULUS
  }
}
