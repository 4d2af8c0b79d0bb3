/** Fixed-width unsigned integers of the original, where their width matters. */
module MachineInts {

  const WRAP16: nat := 0x1_0000
  const WRAP32: nat := 0x1_0000_0000
  const WRAP64: nat := 0x1_0000_0000_0000_0000

  type U16 = x: int | 0 <= x < WRAP16
  type U32 = x: int | 0 <= x < WRAP32
  type U64 = x: int | 0 <= x < WRAP64
}
