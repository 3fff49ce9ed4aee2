/** The fixed-width unsigned integers of the program. */
module Bounded {
  const TWO_TO_THE_8: nat := 0x100
  const TWO_TO_THE_16: nat := 0x1_0000
  const TWO_TO_THE_32: nat := 0x1_0000_0000
  const TWO_TO_THE_64: nat := 0x1_0000_0000_0000_0000

  type u8 = x: int | 0 <= x < TWO_TO_THE_8
  type u16 = x: int | 0 <= x < TWO_TO_THE_16
  type u32 = x: int | 0 <= x < TWO_TO_THE_32
  type u64 = x: int | 0 <= x < TWO_TO_THE_64

  type Bytes = seq<u8>

  datatype Option<+T> = None | Some(value: T)

  function Concat(parts: seq<Bytes>): Bytes {
    if parts == [] then [] else parts[0] + Concat(parts[1..])
  }

  function Min(a: int, b: int): int { if a <= b then a else b }

  function Max(a: int, b: int): int { if a >= b then a else b }
}
