/** The machine state (`struct emulator` without its SDL handles) as a value,
    its initial contents, and the two set-up operations: `init`'s program
    counter and font placement, and `load_rom`'s size check and copy. */
module MachineState {
  import opened Types

  const MEMORY_SIZE := 4096
  const REGISTER_COUNT := 16
  const FLAG := 0xF              // VF
  const SCREEN_WIDTH := 64
  const SCREEN_HEIGHT := 32
  const PIXEL_COUNT := SCREEN_WIDTH * SCREEN_HEIGHT
  const STACK_DEPTH := 16
  const KEY_COUNT := 16
  const PROGRAM_START := 0x200
  const FONT_START := 0x50
  /** `available_memory` of `load_rom`. */
  const ROM_CAPACITY := 0xFFF - 0x200

  /** A lit pixel: every bit of the 32-bit cell set. */
  const PIXEL_ON: bv32 := 0xFFFF_FFFF

  /** The built-in 4x5 hexadecimal font, glyphs 0 to F, five rows each. */
  const FONT_SET: seq<u8> := [
    0xF0, 0x90, 0x90, 0x90, 0xF0, // 0
    0x20, 0x60, 0x20, 0x20, 0x70, // 1
    0xF0, 0x10, 0xF0, 0x80, 0xF0, // 2
    0xF0, 0x10, 0xF0, 0x10, 0xF0, // 3
    0x90, 0x90, 0xF0, 0x10, 0x10, // 4
    0xF0, 0x80, 0xF0, 0x10, 0xF0, // 5
    0xF0, 0x80, 0xF0, 0x90, 0xF0, // 6
    0xF0, 0x10, 0x20, 0x40, 0x40, // 7
    0xF0, 0x90, 0xF0, 0x90, 0xF0, // 8
    0xF0, 0x90, 0xF0, 0x10, 0xF0, // 9
    0xF0, 0x90, 0xF0, 0x90, 0x90, // A
    0xE0, 0x90, 0xE0, 0x90, 0xE0, // B
    0xF0, 0x80, 0x80, 0x80, 0xF0, // C
    0xE0, 0x90, 0x90, 0x90, 0xE0, // D
    0xF0, 0x80, 0xF0, 0x80, 0xF0, // E
    0xF0, 0x80, 0xF0, 0x80, 0x80  // F
  ]

  /** Every field of the emulator that the interpreter reads or writes.
      `keys` is written only by the host's input handling. */
  datatype Machine = Machine(
    memory: seq<u8>,
    romSize: u32,
    registers: seq<u8>,
    index: u16,
    pc: u16,
    gfx: seq<bv32>,
    drawFlag: bool,
    delayTimer: u8,
    soundTimer: u8,
    stack: seq<u16>,
    sp: u16,
    keys: seq<u8>)

  /** The array sizes of the struct, and a stack pointer that is at most the
      stack's depth (a full stack has `sp == 16`). */
  predicate WellFormed(m: Machine) {
    && |m.memory| == MEMORY_SIZE
    && |m.registers| == REGISTER_COUNT
    && |m.gfx| == PIXEL_COUNT
    && |m.stack| == STACK_DEPTH
    && |m.keys| == KEY_COUNT
    && m.sp <= STACK_DEPTH
  }

  /** Every pixel fully lit or fully dark. */
  predicate Monochrome(gfx: seq<bv32>) {
    forall i :: 0 <= i < |gfx| ==> gfx[i] == 0 || gfx[i] == PIXEL_ON
  }

  /** The zero-initialised struct (`struct emulator emu = {0}`). */
  function Zeroed(): (m: Machine)
    ensures WellFormed(m) && Monochrome(m.gfx)
    ensures forall i :: 0 <= i < MEMORY_SIZE ==> m.memory[i] == 0
    ensures forall i :: 0 <= i < PIXEL_COUNT ==> m.gfx[i] == 0
    ensures forall i :: 0 <= i < REGISTER_COUNT ==> m.registers[i] == 0 && m.keys[i] == 0
    ensures forall i :: 0 <= i < STACK_DEPTH ==> m.stack[i] == 0
    ensures m.pc == 0 && m.sp == 0 && m.index == 0
    ensures m.delayTimer == 0 && m.soundTimer == 0 && !m.drawFlag && m.romSize == 0
  {
    Machine(seq(MEMORY_SIZE, _ => 0), 0, seq(REGISTER_COUNT, _ => 0), 0, 0,
            seq(PIXEL_COUNT, _ => 0), false, 0, 0, seq(STACK_DEPTH, _ => 0), 0,
            seq(KEY_COUNT, _ => 0))
  }

  /** The core part of `init`: the program counter starts at 0x200 and the font
      occupies `memory[0x50 .. 0xA0)`; nothing else changes. */
  function Initialised(m: Machine): (r: Machine)
    requires WellFormed(m)
    ensures WellFormed(r) && r.pc == PROGRAM_START
    ensures forall i :: 0 <= i < |FONT_SET| ==> r.memory[FONT_START + i] == FONT_SET[i]
    ensures forall i :: 0 <= i < MEMORY_SIZE && !(FONT_START <= i < FONT_START + |FONT_SET|) ==>
      r.memory[i] == m.memory[i]
    ensures r == m.(pc := r.pc, memory := r.memory)
  {
    m.(pc := PROGRAM_START,
       memory := m.memory[..FONT_START] + FONT_SET + m.memory[FONT_START + |FONT_SET|..])
  }

  /** The core part of `load_rom`: a ROM of at most `0xFFF - 0x200` bytes is
      copied to 0x200 and its length recorded; a longer one is refused and the
      machine is left as it was. */
  function LoadRom(m: Machine, rom: seq<u8>): (r: (bool, Machine))
    requires WellFormed(m)
    ensures WellFormed(r.1)
    ensures r.0 <==> |rom| <= ROM_CAPACITY
    ensures !r.0 ==> r.1 == m
    ensures r.0 ==> r.1.romSize == |rom|
    ensures r.0 ==> forall i :: 0 <= i < |rom| ==> r.1.memory[PROGRAM_START + i] == rom[i]
    ensures r.0 ==> forall i :: 0 <= i < MEMORY_SIZE && !(PROGRAM_START <= i < PROGRAM_START + |rom|) ==>
      r.1.memory[i] == m.memory[i]
    ensures r.1 == m.(romSize := r.1.romSize, memory := r.1.memory)
  {
    if |rom| <= ROM_CAPACITY then
      var end := PROGRAM_START + |rom|;
      (true, m.(memory := m.memory[..PROGRAM_START] + rom + m.memory[end..], romSize := |rom|))
    else
      (false, m)
  }
}
