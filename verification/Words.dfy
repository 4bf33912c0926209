/** Machine words as ranges of numbers: a value that fits its type has not wrapped around. */
module Words {
  type u32 = x: int | 0 <= x < 0x1_00000000
  type u64 = x: int | 0 <= x < 0x1_00000000_00000000
  type u128 = x: int | 0 <= x < 0x1_00000000_00000000_00000000_00000000

  /** What a 64-bit word wraps around at. */
  const TWO_64: int := 0x1_00000000_00000000
}
