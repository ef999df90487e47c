/** Fixed-width machine integers of the emulator, modelled as bounded ints.
    Wrap-around is always written out explicitly where the C code relies on
    the implicit truncation of an assignment to a narrower type. */
module Types {

  /** C `uint8_t`. */
  type u8 = x: int | 0 <= x < 0x100

  /** C `uint16_t`. */
  type u16 = x: int | 0 <= x < 0x1_0000

  /** C `uint32_t`. */
  type u32 = x: int | 0 <= x < 0x1_0000_0000

  /** A 4-bit opcode field: a register number or a sprite height. */
  type Nibble = x: int | 0 <= x < 0x10

  /** A 12-bit address operand (the NNN field of an opcode). */
  type Addr = x: int | 0 <= x < 0x1000

  /** Assignment of an int-promoted value to a `u8`: keeps the low 8 bits. */
  function Wrap8(v: int): (r: u8)
    ensures 0 <= v < 0x100 ==> r == v
    ensures 0x100 <= v < 0x200 ==> r == v - 0x100
    ensures -0x100 <= v < 0 ==> r == v + 0x100
  {
    v % 0x100
  }

  /** Assignment of an int-promoted value to a `u16`: keeps the low 16 bits. */
  function Wrap16(v: int): (r: u16)
    ensures 0 <= v < 0x1_0000 ==> r == v
    ensures 0x1_0000 <= v < 0x2_0000 ==> r == v - 0x1_0000
  {
    v % 0x1_0000
  }

  /** Bitwise `a | b` on bytes. */
  function Or8(a: u8, b: u8): u8 {
    ((a as bv8) | (b as bv8)) as int
  }

  /** Bitwise `a & b` on bytes. */
  function And8(a: u8, b: u8): u8 {
    ((a as bv8) & (b as bv8)) as int
  }

  /** Bitwise `a ^ b` on bytes. */
  function Xor8(a: u8, b: u8): u8 {
    ((a as bv8) ^ (b as bv8)) as int
  }

  /** The bits of `a & b` are a subset of the bits of `b`. */
  lemma AndWithinMask(a: u8, b: u8)
    ensures (And8(a, b) as bv8) & !(b as bv8) == 0
  {
    AndBits(a, b);
    MaskedBits(a as bv8, b as bv8);
  }

  lemma AndBits(a: u8, b: u8)
    ensures And8(a, b) as bv8 == (a as bv8) & (b as bv8)
  {
  }

  lemma OrBits(a: u8, b: u8)
    ensures Or8(a, b) as bv8 == (a as bv8) | (b as bv8)
  {
  }

  lemma XorBits(a: u8, b: u8)
    ensures Xor8(a, b) as bv8 == (a as bv8) ^ (b as bv8)
  {
  }

  lemma MaskedBits(p: bv8, q: bv8)
    ensures (p & q) & !q == 0
  {
  }
}
