// Fixed-width unsigned integers, and the wrap-around that C gives them.
module MachineInts {
  type u8 = x: int | 0 <= x < 0x100
  type u16 = x: int | 0 <= x < 0x1_0000
  type u32 = x: int | 0 <= x < 0x1_0000_0000

  function Wrap8(x: int): u8 { x % 0x100 }

  function Wrap16(x: int): u16 { x % 0x1_0000 }

  function Wrap32(x: int): u32 { x % 0x1_0000_0000 }

  lemma WrapDiv(x: int)
    ensures Wrap32(x) == x - 0x1_0000_0000 * (x / 0x1_0000_0000)
  {
  }

  lemma WrapShift(x: int, k: int)
    ensures Wrap32(x + 0x1_0000_0000 * k) == Wrap32(x)
  {
  }

  // The value of a 32-bit pattern read as a two's complement number.
  function Signed32(x: u32): int { if x < 0x8000_0000 then x else x - 0x1_0000_0000 }

  // The same for 16 bits.
  function Signed16(x: u16): int { if x < 0x8000 then x else x - 0x1_0000 }

  // Two bytes in the order that USB sends them.
  function Word(lo: u8, hi: int): u16
    requires 0 <= hi < 0x100
  {
    lo + 0x100 * hi
  }

  function Min(a: int, b: int): int { if a <= b then a else b }

  function Max(a: int, b: int): int { if a >= b then a else b }
}
