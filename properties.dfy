/** What one instruction, and one cycle, do to the machine, stated against
    the Cowgod CHIP-8 reference and the behaviour of `emulation_cycle`:
    skips, calls and returns, the 8XY_ flags, BCD, the block transfers, the
    key wait, the timers, the random byte and the screen. */
module Properties {
  import opened Types
  import opened Opcodes
  import opened MachineState
  import opened Interpreter
  import Sprites

  // ---------------------------------------------------------------------
  // Skips

  /** The condition under which a conditional skip jumps over the next
      instruction, in the words of the reference. */
  predicate SkipTaken(m: Machine, ins: Instr)
    requires WellFormed(m) && Allowed(m, ins) && IsSkip(ins)
  {
    match ins
    case SkipIfEqualImm(x, nn) => m.registers[x] == nn
    case SkipIfNotEqualImm(x, nn) => m.registers[x] != nn
    case SkipIfEqualReg(x, y) => m.registers[x] == m.registers[y]
    case SkipIfNotEqualReg(x, y) => m.registers[x] != m.registers[y]
    case SkipIfKey(x) => m.keys[m.registers[x]] != 0
    case SkipIfNotKey(x) => m.keys[m.registers[x]] == 0
  }

  /** A skip moves the program counter by 4 when its condition holds and by 2
      otherwise, and changes nothing else. */
  lemma SkipMovesOnlyPc(m: Machine, ins: Instr, rnd: nat)
    requires WellFormed(m) && Allowed(m, ins) && IsSkip(ins)
    ensures Exec(m, ins, rnd) == m.(pc := Exec(m, ins, rnd).pc)
    ensures Exec(m, ins, rnd).pc == Wrap16(m.pc + if SkipTaken(m, ins) then 4 else 2)
  {
    assert Exec(m, ins, rnd) == ExecSkip(m, ins);
  }

  /** 3XNN and 4XNN are complementary: from the same state exactly one of
      them skips. */
  lemma ImmediateSkipsComplement(m: Machine, x: Nibble, nn: u8, rnd: nat)
    requires WellFormed(m)
    ensures Exec(m, SkipIfEqualImm(x, nn), rnd).pc != Exec(m, SkipIfNotEqualImm(x, nn), rnd).pc
  {
    assert Exec(m, SkipIfEqualImm(x, nn), rnd) == ExecSkip(m, SkipIfEqualImm(x, nn));
    assert Exec(m, SkipIfNotEqualImm(x, nn), rnd) == ExecSkip(m, SkipIfNotEqualImm(x, nn));
  }

  /** So are 5XY0 and 9XY0. */
  lemma RegisterSkipsComplement(m: Machine, x: Nibble, y: Nibble, rnd: nat)
    requires WellFormed(m)
    ensures Exec(m, SkipIfEqualReg(x, y), rnd).pc != Exec(m, SkipIfNotEqualReg(x, y), rnd).pc
  {
    assert Exec(m, SkipIfEqualReg(x, y), rnd) == ExecSkip(m, SkipIfEqualReg(x, y));
    assert Exec(m, SkipIfNotEqualReg(x, y), rnd) == ExecSkip(m, SkipIfNotEqualReg(x, y));
  }

  /** And so are EX9E and EXA1. */
  lemma KeySkipsComplement(m: Machine, x: Nibble, rnd: nat)
    requires WellFormed(m) && m.registers[x] < KEY_COUNT
    ensures Exec(m, SkipIfKey(x), rnd).pc != Exec(m, SkipIfNotKey(x), rnd).pc
  {
    assert Exec(m, SkipIfKey(x), rnd) == ExecSkip(m, SkipIfKey(x));
    assert Exec(m, SkipIfNotKey(x), rnd) == ExecSkip(m, SkipIfNotKey(x));
  }

  // ---------------------------------------------------------------------
  // Subroutines

  /** 2NNN pushes the address of the call itself (not the next one), bumps the
      stack pointer and jumps. */
  lemma CallPushesPc(m: Machine, a: Addr, rnd: nat)
    requires WellFormed(m) && m.sp < STACK_DEPTH
    ensures var r := Exec(m, Call(a), rnd);
      && r.pc == a && r.sp == m.sp + 1 && r.stack[m.sp] == m.pc
      && (forall i :: 0 <= i < STACK_DEPTH && i != m.sp ==> r.stack[i] == m.stack[i])
      && r == m.(pc := r.pc, sp := r.sp, stack := r.stack)
  {
    assert Exec(m, Call(a), rnd) == ExecFlow(m, Call(a));
  }

  /** A call followed by a return restores the stack pointer and resumes at
      the instruction after the call; only the stack slot that was used keeps
      the return address. */
  lemma CallThenReturn(m: Machine, a: Addr, rnd: nat)
    requires WellFormed(m) && m.sp < STACK_DEPTH
    ensures Allowed(Exec(m, Call(a), rnd), Return)
    ensures var r := Exec(Exec(m, Call(a), rnd), Return, rnd);
      r == m.(pc := Wrap16(m.pc + 2), stack := m.stack[m.sp := m.pc])
  {
    var c := Exec(m, Call(a), rnd);
    assert c == ExecFlow(m, Call(a));
    assert Exec(c, Return, rnd) == ExecFlow(c, Return);
  }

  /** 00EE on its own pops the return address and resumes two bytes after
      it; the stack's contents stay. */
  lemma ReturnPops(m: Machine, rnd: nat)
    requires WellFormed(m) && m.sp > 0
    ensures var r := Exec(m, Return, rnd);
      r == m.(sp := m.sp - 1, pc := Wrap16(m.stack[m.sp - 1] as int + 2))
  {
    assert Exec(m, Return, rnd) == ExecFlow(m, Return);
  }

  /** 1NNN jumps to NNN and BNNN to NNN + V0, which never leaves 16 bits;
      neither changes anything but the program counter. */
  lemma JumpTargets(m: Machine, a: Addr, rnd: nat)
    requires WellFormed(m)
    ensures Exec(m, Jump(a), rnd) == m.(pc := a)
    ensures Exec(m, JumpOffset(a), rnd) == m.(pc := a + m.registers[0])
  {
    assert Exec(m, Jump(a), rnd) == ExecFlow(m, Jump(a));
    assert Exec(m, JumpOffset(a), rnd) == ExecFlow(m, JumpOffset(a));
  }

  // ---------------------------------------------------------------------
  // The 8XY_ arithmetic, for a destination other than VF

  /** 8XY4: VX becomes the low byte of VX + VY and VF is 1 exactly when VY > VX
      beforehand. Nothing else but the program counter changes. */
  lemma AddRegFlags(m: Machine, x: Nibble, y: Nibble, rnd: nat)
    requires WellFormed(m) && x != FLAG
    ensures var v, r := m.registers, Exec(m, AddReg(x, y), rnd);
      && r.registers[FLAG] == (if v[y] > v[x] then 1 else 0)
      && r.registers[x] as int + (if v[x] as int + v[y] > 0xFF then 0x100 else 0) == v[x] as int + v[y]
      && (forall i :: 0 <= i < REGISTER_COUNT && i != x && i != FLAG ==> r.registers[i] == v[i])
      && r == m.(registers := r.registers, pc := Wrap16(m.pc + 2))
  {
    assert Exec(m, AddReg(x, y), rnd) == ExecFlagged(m, AddReg(x, y));
  }

  /** The flag of 8XY4 is not the carry of the addition: 0xFF + 0x01 wraps to
      0 and still leaves VF at 0, because VY > VX does not hold. */
  lemma AddRegFlagIsNotCarry(m: Machine, x: Nibble, y: Nibble, rnd: nat)
    requires WellFormed(m) && x != FLAG && y != x
    requires m.registers[x] == 0xFF && m.registers[y] == 0x01
    ensures Exec(m, AddReg(x, y), rnd).registers[x] == 0
    ensures Exec(m, AddReg(x, y), rnd).registers[FLAG] == 0
  {
    AddRegFlags(m, x, y, rnd);
  }

  /** 8XY5: VX becomes VX - VY modulo 256 and VF is 1 exactly when nothing is
      borrowed (VY <= VX). */
  lemma SubRegFlags(m: Machine, x: Nibble, y: Nibble, rnd: nat)
    requires WellFormed(m) && x != FLAG
    ensures var v, r := m.registers, Exec(m, SubReg(x, y), rnd);
      && r.registers[FLAG] == (if v[y] <= v[x] then 1 else 0)
      && r.registers[x] == v[x] as int - v[y] + (if v[y] > v[x] then 0x100 else 0)
      && (forall i :: 0 <= i < REGISTER_COUNT && i != x && i != FLAG ==> r.registers[i] == v[i])
      && r == m.(registers := r.registers, pc := Wrap16(m.pc + 2))
  {
    assert Exec(m, SubReg(x, y), rnd) == ExecFlagged(m, SubReg(x, y));
  }

  /** 8XY7: VX becomes VY - VX modulo 256 and VF is 1 exactly when nothing is
      borrowed (VX <= VY). */
  lemma SubRevFlags(m: Machine, x: Nibble, y: Nibble, rnd: nat)
    requires WellFormed(m) && x != FLAG
    ensures var v, r := m.registers, Exec(m, SubRev(x, y), rnd);
      && r.registers[FLAG] == (if v[x] <= v[y] then 1 else 0)
      && r.registers[x] == v[y] as int - v[x] + (if v[x] > v[y] then 0x100 else 0)
      && (forall i :: 0 <= i < REGISTER_COUNT && i != x && i != FLAG ==> r.registers[i] == v[i])
      && r == m.(registers := r.registers, pc := Wrap16(m.pc + 2))
  {
    assert Exec(m, SubRev(x, y), rnd) == ExecFlagged(m, SubRev(x, y));
  }

  /** 8XY6: VF receives the bit shifted out at the bottom, so VX is recovered
      as twice the new VX plus VF. */
  lemma ShiftRightFlags(m: Machine, x: Nibble, rnd: nat)
    requires WellFormed(m) && x != FLAG
    ensures var v, r := m.registers, Exec(m, ShiftRight(x), rnd);
      && r.registers[FLAG] < 2
      && 2 * (r.registers[x] as int) + r.registers[FLAG] == v[x]
      && (forall i :: 0 <= i < REGISTER_COUNT && i != x && i != FLAG ==> r.registers[i] == v[i])
      && r == m.(registers := r.registers, pc := Wrap16(m.pc + 2))
  {
    assert Exec(m, ShiftRight(x), rnd) == ExecFlagged(m, ShiftRight(x));
  }

  /** 8XYE: VF receives the bit shifted out at the top, so twice VX is the new
      VX plus 256 times VF. */
  lemma ShiftLeftFlags(m: Machine, x: Nibble, rnd: nat)
    requires WellFormed(m) && x != FLAG
    ensures var v, r := m.registers, Exec(m, ShiftLeft(x), rnd);
      && r.registers[FLAG] < 2
      && r.registers[x] as int + 0x100 * (r.registers[FLAG] as int) == 2 * (v[x] as int)
      && (forall i :: 0 <= i < REGISTER_COUNT && i != x && i != FLAG ==> r.registers[i] == v[i])
      && r == m.(registers := r.registers, pc := Wrap16(m.pc + 2))
  {
    assert Exec(m, ShiftLeft(x), rnd) == ExecFlagged(m, ShiftLeft(x));
  }

  /** With VF as the destination the flag is written first and the result
      then overwrites it: 8FY4 leaves the sum of the flag and VY in VF. */
  lemma FlagDestinationQuirk(m: Machine, y: Nibble, rnd: nat)
    requires WellFormed(m)
    ensures var v := m.registers; var flag := if v[y] > v[FLAG] then 1 else 0;
      Exec(m, AddReg(FLAG, y), rnd).registers[FLAG] == (flag + v[y] as int) % 0x100
  {
    assert Exec(m, AddReg(FLAG, y), rnd) == ExecFlagged(m, AddReg(FLAG, y));
  }

  /** The shifts with VF as the destination shift the flag they have just
      written: 8F06 always leaves 0, and 8F0E twice the bit shifted out. */
  lemma FlagDestinationShift(m: Machine, rnd: nat)
    requires WellFormed(m)
    ensures Exec(m, ShiftRight(FLAG), rnd).registers[FLAG] == 0
    ensures Exec(m, ShiftLeft(FLAG), rnd).registers[FLAG] == 2 * (m.registers[FLAG] / 0x80)
  {
    assert Exec(m, ShiftRight(FLAG), rnd) == ExecFlagged(m, ShiftRight(FLAG));
    assert Exec(m, ShiftLeft(FLAG), rnd) == ExecFlagged(m, ShiftLeft(FLAG));
  }

  /** The two subtractions with VF as the destination: 8FY5 subtracts VY from
      the no-borrow flag it has just written, while 8FY7 uses the value VF
      had before the flag was written. */
  lemma FlagDestinationSubtract(m: Machine, y: Nibble, rnd: nat)
    requires WellFormed(m)
    ensures var v := m.registers; var flag := if v[y] > v[FLAG] then 0 else 1;
      Exec(m, SubReg(FLAG, y), rnd).registers[FLAG] == (flag - v[y] as int) % 0x100
    ensures var v := m.registers;
      Exec(m, SubRev(FLAG, y), rnd).registers[FLAG] == (v[y] as int - v[FLAG]) % 0x100
  {
    assert Exec(m, SubReg(FLAG, y), rnd) == ExecFlagged(m, SubReg(FLAG, y));
    assert Exec(m, SubRev(FLAG, y), rnd) == ExecFlagged(m, SubRev(FLAG, y));
  }

  // ---------------------------------------------------------------------
  // Loads and bitwise operations, which leave VF alone

  /** 6XNN loads NN, 7XNN adds NN modulo 256 without touching VF, and 8XY0
      copies VY; only VX and the program counter change. */
  lemma LoadValues(m: Machine, x: Nibble, y: Nibble, nn: u8, rnd: nat)
    requires WellFormed(m)
    ensures Exec(m, LoadImm(x, nn), rnd) == m.(registers := m.registers[x := nn], pc := Wrap16(m.pc + 2))
    ensures var r := Exec(m, AddImm(x, nn), rnd);
      && r.registers[x] == (m.registers[x] + nn) % 0x100
      && r.registers[FLAG] == (if x == FLAG then r.registers[x] else m.registers[FLAG])
    ensures Exec(m, Move(x, y), rnd).registers[x] == m.registers[y]
  {
    assert Exec(m, LoadImm(x, nn), rnd) == ExecLoad(m, LoadImm(x, nn), rnd);
    assert Exec(m, AddImm(x, nn), rnd) == ExecLoad(m, AddImm(x, nn), rnd);
    assert Exec(m, Move(x, y), rnd) == ExecLoad(m, Move(x, y), rnd);
  }

  /** 8XY1, 8XY2 and 8XY3 store the bitwise or, and and exclusive or of VX
      and VY in VX. */
  lemma BitwiseValues(m: Machine, x: Nibble, y: Nibble, rnd: nat)
    requires WellFormed(m)
    ensures var vx, vy := m.registers[x] as bv8, m.registers[y] as bv8;
      Exec(m, Or(x, y), rnd).registers[x] as bv8 == vx | vy
    ensures var vx, vy := m.registers[x] as bv8, m.registers[y] as bv8;
      Exec(m, And(x, y), rnd).registers[x] as bv8 == vx & vy
    ensures var vx, vy := m.registers[x] as bv8, m.registers[y] as bv8;
      Exec(m, Xor(x, y), rnd).registers[x] as bv8 == vx ^ vy
  {
    assert Exec(m, Or(x, y), rnd) == ExecLoad(m, Or(x, y), rnd);
    assert Exec(m, And(x, y), rnd) == ExecLoad(m, And(x, y), rnd);
    assert Exec(m, Xor(x, y), rnd) == ExecLoad(m, Xor(x, y), rnd);
    OrBits(m.registers[x], m.registers[y]);
    AndBits(m.registers[x], m.registers[y]);
    XorBits(m.registers[x], m.registers[y]);
  }

  // ---------------------------------------------------------------------
  // The index register, BCD and block transfers

  /** ANNN loads NNN into I and FX07 copies the delay timer into VX. */
  lemma IndexValues(m: Machine, x: Nibble, a: Addr, rnd: nat)
    requires WellFormed(m)
    ensures Exec(m, LoadIndex(a), rnd) == m.(index := a, pc := Wrap16(m.pc + 2))
    ensures Exec(m, ReadDelay(x), rnd) == m.(registers := m.registers[x := m.delayTimer], pc := Wrap16(m.pc + 2))
  {
    assert Exec(m, LoadIndex(a), rnd) == ExecIndex(m, LoadIndex(a));
    assert Exec(m, ReadDelay(x), rnd) == ExecIndex(m, ReadDelay(x));
  }

  /** FX15 and FX18 load the delay and sound timers from VX. */
  lemma TimerValues(m: Machine, x: Nibble, rnd: nat)
    requires WellFormed(m)
    ensures Exec(m, SetDelay(x), rnd) == m.(delayTimer := m.registers[x], pc := Wrap16(m.pc + 2))
    ensures Exec(m, SetSound(x), rnd) == m.(soundTimer := m.registers[x], pc := Wrap16(m.pc + 2))
  {
    assert Exec(m, SetDelay(x), rnd) == ExecIndex(m, SetDelay(x));
    assert Exec(m, SetSound(x), rnd) == ExecIndex(m, SetSound(x));
  }

  /** FX29 sets I to 0x50 + 5 VX for every VX, font or no font, and changes
      nothing else but the program counter. */
  lemma FontCharIndex(m: Machine, x: Nibble, rnd: nat)
    requires WellFormed(m)
    ensures Exec(m, FontChar(x), rnd) ==
      m.(index := FONT_START + 5 * (m.registers[x] as int), pc := Wrap16(m.pc + 2))
  {
    assert Exec(m, FontChar(x), rnd) == ExecIndex(m, FontChar(x));
  }

  /** The font as `init` leaves it at 0x50. */
  predicate FontLoaded(m: Machine)
    requires WellFormed(m)
  {
    forall i :: 0 <= i < |FONT_SET| ==> m.memory[FONT_START + i] == FONT_SET[i]
  }

  /** FX29 points I at the glyph of the hex digit in VX: with the font in
      place, the five bytes at the new I are that digit's rows. */
  lemma FontCharGlyph(m: Machine, x: Nibble, rnd: nat)
    requires WellFormed(m) && FontLoaded(m) && m.registers[x] < 0x10
    ensures var r, d := Exec(m, FontChar(x), rnd), m.registers[x];
      && r.index == FONT_START + 5 * d
      && r.index + 5 <= MEMORY_SIZE
      && r.memory[r.index .. r.index + 5] == FONT_SET[5 * d .. 5 * d + 5]
      && r == m.(index := r.index, pc := Wrap16(m.pc + 2))
  {
    var r, d := Exec(m, FontChar(x), rnd), m.registers[x];
    assert r == ExecIndex(m, FontChar(x));
    forall j | r.index <= j < r.index + 5
      ensures r.memory[j] == FONT_SET[j - FONT_START]
    {
    }
  }

  /** `init` puts the font in place. */
  lemma InitialisedFont(m: Machine)
    requires WellFormed(m)
    ensures FontLoaded(Initialised(m))
  {
  }

  /** FX1E adds VX to I as a 16-bit sum and does set VF: to 1 exactly when
      the sum passes 0xFFF. */
  lemma AddIndexFlag(m: Machine, x: Nibble, rnd: nat)
    requires WellFormed(m)
    ensures var r := Exec(m, AddIndex(x), rnd);
      && r.registers[FLAG] == (if m.index + m.registers[x] > 0xFFF then 1 else 0)
      && r.index == (m.index + m.registers[x]) % 0x1_0000
      && r == m.(registers := m.registers[FLAG := r.registers[FLAG]], index := r.index,
                 pc := Wrap16(m.pc + 2))
  {
    assert Exec(m, AddIndex(x), rnd) == ExecIndex(m, AddIndex(x));
  }

  /** FX33: three decimal digits at I, I + 1 and I + 2 that spell VX; I and
      every other byte of memory stay as they were. */
  lemma BcdDigits(m: Machine, x: Nibble, rnd: nat)
    requires WellFormed(m) && m.index + 2 < MEMORY_SIZE
    ensures var r, i := Exec(m, StoreBcd(x), rnd), m.index;
      && r.memory[i] < 10 && r.memory[i + 1] < 10 && r.memory[i + 2] < 10
      && 100 * r.memory[i] + 10 * r.memory[i + 1] + r.memory[i + 2] == m.registers[x]
      && (forall j :: 0 <= j < MEMORY_SIZE && !(i <= j <= i + 2) ==> r.memory[j] == m.memory[j])
      && r == m.(memory := r.memory, pc := Wrap16(m.pc + 2))
  {
    assert Exec(m, StoreBcd(x), rnd) == ExecTransfer(m, StoreBcd(x));
    DecimalDigits(m.registers[x]);
  }

  /** The three decimal digits FX33 computes spell the byte back. */
  lemma DecimalDigits(v: u8)
    ensures v / 100 < 10 && (v / 10) % 10 < 10 && (v % 100) % 10 < 10
    ensures 100 * (v / 100) + 10 * ((v / 10) % 10) + (v % 100) % 10 == v
  {
  }

  /** FX55: V0 to VX inclusive land at I to I + X; I, the registers and every
      other byte stay as they were. */
  lemma StoreRegsEffect(m: Machine, x: Nibble, rnd: nat)
    requires WellFormed(m) && m.index + x < MEMORY_SIZE
    ensures var r, i := Exec(m, StoreRegs(x), rnd), m.index;
      && (forall j :: 0 <= j <= x ==> r.memory[i + j] == m.registers[j])
      && (forall j :: 0 <= j < MEMORY_SIZE && !(i <= j <= i + x) ==> r.memory[j] == m.memory[j])
      && r == m.(memory := r.memory, pc := Wrap16(m.pc + 2))
  {
    assert Exec(m, StoreRegs(x), rnd) == ExecTransfer(m, StoreRegs(x));
  }

  /** FX65: V0 to VX inclusive are read from I to I + X; I, memory and the
      registers above X stay as they were. */
  lemma LoadRegsEffect(m: Machine, x: Nibble, rnd: nat)
    requires WellFormed(m) && m.index + x < MEMORY_SIZE
    ensures var r, i := Exec(m, LoadRegs(x), rnd), m.index;
      && (forall j :: 0 <= j <= x ==> r.registers[j] == m.memory[i + j])
      && (forall j :: x < j < REGISTER_COUNT ==> r.registers[j] == m.registers[j])
      && r == m.(registers := r.registers, pc := Wrap16(m.pc + 2))
  {
    assert Exec(m, LoadRegs(x), rnd) == ExecTransfer(m, LoadRegs(x));
  }

  /** FX55 saves V0 to VX at I; whatever the registers hold afterwards, FX65
      from the same I brings V0 to VX back, leaves the higher registers as
      they now are, and keeps I. */
  lemma StoreThenLoad(m: Machine, x: Nibble, regs: seq<u8>, rnd: nat)
    requires WellFormed(m) && m.index + x < MEMORY_SIZE && |regs| == REGISTER_COUNT
    ensures var s := Exec(m, StoreRegs(x), rnd).(registers := regs);
      WellFormed(s) && Allowed(s, LoadRegs(x))
    ensures var s := Exec(m, StoreRegs(x), rnd).(registers := regs);
      var r := Exec(s, LoadRegs(x), rnd);
      && r.registers[..x + 1] == m.registers[..x + 1]
      && r.registers[x + 1..] == regs[x + 1..]
      && r.index == m.index
  {
    StoreRegsEffect(m, x, rnd);
    var s := Exec(m, StoreRegs(x), rnd).(registers := regs);
    LoadRegsEffect(s, x, rnd);
    var r := Exec(s, LoadRegs(x), rnd);
    forall j | 0 <= j <= x
      ensures r.registers[j] == m.registers[j]
    {
      assert r.registers[j] == s.memory[m.index + j];
    }
  }

  // ---------------------------------------------------------------------
  // The random byte

  /** CXNN: the result has no bit outside NN, and nothing but VX and the
      program counter changes. */
  lemma RandomMasked(m: Machine, x: Nibble, nn: u8, rnd: nat)
    requires WellFormed(m)
    ensures var r := Exec(m, Random(x, nn), rnd);
      && (r.registers[x] as bv8) & !(nn as bv8) == 0
      && r == m.(registers := m.registers[x := r.registers[x]], pc := Wrap16(m.pc + 2))
  {
    var r := Exec(m, Random(x, nn), rnd);
    assert r == ExecLoad(m, Random(x, nn), rnd);
    AndWithinMask(rnd % 0xFF, nn);
  }

  // ---------------------------------------------------------------------
  // The key wait and the cycle

  /** FX0A with a key down stores the highest-numbered key that is down in VX
      and moves on; with none down it changes nothing. */
  lemma WaitKeyHighest(m: Machine, x: Nibble, rnd: nat)
    requires WellFormed(m)
    ensures var r := Exec(m, WaitKey(x), rnd);
      if forall j :: 0 <= j < KEY_COUNT ==> m.keys[j] == 0 then r == m
      else
        && r.registers[x] < KEY_COUNT && m.keys[r.registers[x]] != 0
        && (forall j :: r.registers[x] < j < KEY_COUNT ==> m.keys[j] == 0)
        && r == m.(registers := m.registers[x := r.registers[x]], pc := Wrap16(m.pc + 2))
  {
    assert Exec(m, WaitKey(x), rnd) == ExecWaitKey(m, x);
  }

  /** A cycle blocks exactly on FX0A with every key up, and then leaves the
      whole machine, timers included, as it was. */
  lemma BlockedCycle(m: Machine, rnd: nat)
    requires WellFormed(m) && Defined(m)
    ensures Step(m, rnd).1.Blocked? <==>
      Current(m).WaitKey? && forall j :: 0 <= j < KEY_COUNT ==> m.keys[j] == 0
    ensures Step(m, rnd).1.Blocked? ==> Step(m, rnd).0 == m
  {
  }

  /** Every cycle that does not block ends with the timers counting down:
      each nonzero timer loses exactly one (unless the instruction itself
      loaded it), and the beep sounds when the sound timer reaches zero. */
  lemma CycleTicksTimers(m: Machine, rnd: nat)
    requires WellFormed(m) && Defined(m) && !Step(m, rnd).1.Blocked?
    ensures var ins, r := Current(m), Step(m, rnd).0;
      && (!ins.SetDelay? ==> r.delayTimer == if m.delayTimer > 0 then m.delayTimer - 1 else 0)
      && (!ins.SetSound? ==> r.soundTimer == if m.soundTimer > 0 then m.soundTimer - 1 else 0)
    ensures var e := Exec(m, Current(m), rnd);
      Step(m, rnd).1 == Executed(Current(m).Unknown?, e.soundTimer == 1)
  {
    var ins := Current(m);
    var e := Exec(m, ins, rnd);
    if !ins.SetDelay? && !ins.SetSound? {
      ExecKeepsTimers(m, ins, rnd);
    } else if ins.SetDelay? {
      assert e == ExecIndex(m, ins);
    } else {
      assert e == ExecIndex(m, ins);
    }
  }

  /** Only FX15 and FX18 write a timer. */
  lemma ExecKeepsTimers(m: Machine, ins: Instr, rnd: nat)
    requires WellFormed(m) && Allowed(m, ins) && !ins.SetDelay? && !ins.SetSound?
    ensures Exec(m, ins, rnd).delayTimer == m.delayTimer
    ensures Exec(m, ins, rnd).soundTimer == m.soundTimer
  {
    if IsIndex(ins) {
      assert Exec(m, ins, rnd) == ExecIndex(m, ins);
    }
  }

  /** A word that matches no case leaves the program counter where it is (so
      the same word is fetched again), yet the timers still tick. */
  lemma UnknownCycle(m: Machine, rnd: nat)
    requires WellFormed(m) && Defined(m) && Current(m).Unknown?
    ensures var t := Tick(m); Step(m, rnd) == (t.0, Executed(true, t.1))
    ensures Step(m, rnd).0.pc == m.pc
  {
  }

  // ---------------------------------------------------------------------
  // The screen

  /** 00E0 darkens every pixel and raises the draw flag. */
  lemma ClearScreenDarkens(m: Machine, rnd: nat)
    requires WellFormed(m)
    ensures var r := Exec(m, ClearScreen, rnd);
      && Sprites.Dark(r.gfx) && r.drawFlag
      && r == m.(gfx := r.gfx, drawFlag := true, pc := Wrap16(m.pc + 2))
  {
    assert Exec(m, ClearScreen, rnd) == ExecFlow(m, ClearScreen);
  }

  /** DXYN: VF ends as the collision flag of the drawing, the draw flag is
      raised, and I, memory and the other registers are left alone. */
  lemma DrawEffect(m: Machine, x: Nibble, y: Nibble, n: Nibble, rnd: nat)
    requires WellFormed(m) && Allowed(m, Draw(x, y, n))
    ensures var r, v := Exec(m, Draw(x, y, n), rnd), m.registers;
      var bits := Sprites.Pattern(SpriteRows(m, n));
      && (r.registers[FLAG] == 1 <==>
           exists j :: 0 <= j < |bits| && Sprites.Hits(bits, v[x], v[y], j) &&
             Sprites.DrawUpTo(m.gfx, bits, v[x], v[y], j).pixels[Sprites.Target(v[x], v[y], j)] == PIXEL_ON)
      && r.registers[FLAG] < 2
      && r == m.(registers := v[FLAG := r.registers[FLAG]], gfx := r.gfx, drawFlag := true,
                 pc := Wrap16(m.pc + 2))
  {
    var bits := Sprites.Pattern(SpriteRows(m, n));
    assert Exec(m, Draw(x, y, n), rnd) == ExecDraw(m, x, y, n);
    Sprites.CollisionWitness(m.gfx, bits, m.registers[x], m.registers[y], |bits|);
  }

  /** Drawing the same sprite twice at the same place, with neither
      coordinate in VF, gives back the frame buffer. */
  lemma DrawTwice(m: Machine, x: Nibble, y: Nibble, n: Nibble, rnd: nat)
    requires WellFormed(m) && Allowed(m, Draw(x, y, n)) && x != FLAG && y != FLAG
    ensures Allowed(Exec(m, Draw(x, y, n), rnd), Draw(x, y, n))
    ensures Exec(Exec(m, Draw(x, y, n), rnd), Draw(x, y, n), rnd).gfx == m.gfx
  {
    var once := Exec(m, Draw(x, y, n), rnd);
    assert once == ExecDraw(m, x, y, n);
    assert SpriteRows(once, n) == SpriteRows(m, n);
    assert Exec(once, Draw(x, y, n), rnd) == ExecDraw(once, x, y, n);
    Sprites.DrawTwiceRestores(m.gfx, Sprites.Pattern(SpriteRows(m, n)), m.registers[x], m.registers[y]);
  }

  /** Every pixel stays fully lit or fully dark across any instruction. */
  lemma ExecKeepsMonochrome(m: Machine, ins: Instr, rnd: nat)
    requires WellFormed(m) && Allowed(m, ins) && Monochrome(m.gfx)
    ensures Monochrome(Exec(m, ins, rnd).gfx)
  {
    if ins.Draw? {
      assert Exec(m, ins, rnd) == ExecDraw(m, ins.x, ins.y, ins.n);
      Sprites.DrawKeepsMonochrome(m.gfx, Sprites.Pattern(SpriteRows(m, ins.n)),
                                  m.registers[ins.x], m.registers[ins.y]);
    } else if IsFlow(ins) {
      assert Exec(m, ins, rnd) == ExecFlow(m, ins);
    } else {
      ExecKeepsScreen(m, ins, rnd);
    }
  }

  /** Only 00E0 and DXYN write the frame buffer. */
  lemma ExecKeepsScreen(m: Machine, ins: Instr, rnd: nat)
    requires WellFormed(m) && Allowed(m, ins) && !ins.Draw? && !ins.ClearScreen?
    ensures Exec(m, ins, rnd).gfx == m.gfx
  {
    if IsFlow(ins) {
      assert Exec(m, ins, rnd) == ExecFlow(m, ins);
    } else if IsSkip(ins) {
      assert Exec(m, ins, rnd) == ExecSkip(m, ins);
    } else if IsLoad(ins) {
      assert Exec(m, ins, rnd) == ExecLoad(m, ins, rnd);
    } else if IsFlagged(ins) {
      assert Exec(m, ins, rnd) == ExecFlagged(m, ins);
    } else if IsIndex(ins) {
      assert Exec(m, ins, rnd) == ExecIndex(m, ins);
    } else if IsTransfer(ins) {
      assert Exec(m, ins, rnd) == ExecTransfer(m, ins);
    }
  }

  /** ... and so across any cycle. */
  lemma CycleKeepsMonochrome(m: Machine, rnd: nat)
    requires WellFormed(m) && Defined(m) && Monochrome(m.gfx)
    ensures Monochrome(Step(m, rnd).0.gfx)
  {
    ExecKeepsMonochrome(m, Current(m), rnd);
  }

  /** The machine as `init` leaves the zeroed struct has a dark screen. */
  lemma InitialScreenDark()
    ensures Sprites.Dark(Initialised(Zeroed()).gfx)
    ensures Monochrome(Initialised(Zeroed()).gfx)
  {
  }
}
