/** Machine integers of the miner: unsigned words that wrap, and the money ceiling. */
module Words {
  const TWO_8 := 0x100
  const TWO_16 := 0x1_0000
  const TWO_32 := 0x1_0000_0000
  const TWO_63 := 0x8000_0000_0000_0000
  const TWO_64 := 0x1_0000_0000_0000_0000

  // The largest amount an account may hold when the miner checks for overflow.
  const MAX_MONEY := TWO_63 - 1

  type uint8 = x: int | 0 <= x < TWO_8
  type uint16 = x: int | 0 <= x < TWO_16
  type uint32 = x: int | 0 <= x < TWO_32
  type uint64 = x: int | 0 <= x < TWO_64

  type Bytes = seq<uint8>

  function Wrap16(x: int): uint16 { x % TWO_16 }

  function Wrap32(x: int): uint32 { x % TWO_32 }

  function Wrap64(x: int): uint64 { x % TWO_64 }

  lemma Wrap16Same(x: uint16)
    ensures Wrap16(x) == x
  {
  }

  lemma Wrap64Absorbs(x: int, y: int)
    ensures Wrap64(Wrap64(x) + y) == Wrap64(x + y)
  {
  }

  lemma WrapSame(x: uint64, y: uint32)
    ensures Wrap64(x) == x && Wrap32(y) == y
  {
  }

  lemma Wrap32Absorbs(x: int, y: int)
    ensures Wrap32(Wrap32(x) + y) == Wrap32(x + y)
  {
  }
}
