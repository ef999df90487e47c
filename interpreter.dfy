/** One cycle of `emulation_cycle` as a function of the machine state: fetch,
    decode, execute, then the timer update. The random byte of CXNN is the
    value `rand()` returned, passed in as `rnd`. */
module Interpreter {
  import opened Types
  import opened Opcodes
  import opened MachineState
  import Sprites

  /** What a cycle reports to its host. `Blocked` is the early return of FX0A
      with no key down: nothing changes, not even the timers. Otherwise the
      cycle reports whether the word hit a `default` branch ("Unknown opcode")
      and whether the sound timer went off ("BEEP!"). */
  datatype Outcome = Blocked | Executed(unknownOpcode: bool, beep: bool)

  /** `program_counter += k` on the 16-bit program counter. */
  function Advance(pc: u16, k: nat): u16 {
    Wrap16(pc + k)
  }

  /** The next instruction: `program_counter += 2`. */
  function Next(m: Machine): Machine {
    m.(pc := Advance(m.pc, 2))
  }

  /** A conditional skip: past the next instruction when `cond` holds. */
  function Skip(m: Machine, cond: bool): Machine {
    m.(pc := Advance(m.pc, if cond then 4 else 2))
  }

  /** The highest-numbered key among `keys[0 .. n)` that is down, or -1 if
      none is: the FX0A scan keeps overwriting VX, so the last hit wins. */
  function LastPressed(keys: seq<u8>, n: nat): (r: int)
    requires n <= |keys|
    ensures -1 <= r < n
    ensures r >= 0 ==> keys[r] != 0 && forall j :: r < j < n ==> keys[j] == 0
    ensures r < 0 <==> forall j :: 0 <= j < n ==> keys[j] == 0
  {
    if n == 0 then -1
    else if keys[n - 1] != 0 then n - 1
    else LastPressed(keys, n - 1)
  }

  /** The N sprite rows at `I`. */
  function SpriteRows(m: Machine, n: Nibble): (rows: seq<u8>)
    requires WellFormed(m) && (n == 0 || m.index + n <= MEMORY_SIZE)
    ensures |rows| == n
    ensures forall j :: 0 <= j < n ==> rows[j] == m.memory[m.index + j]
  {
    if n == 0 then [] else m.memory[m.index .. m.index + n]
  }

  /** What the C code needs so that no array is indexed out of bounds: stack
      space for a call, a non-empty stack for a return, sprite rows and every
      clamped pixel in range, a key number below 16, and room at `I` for BCD
      and block transfers. */
  predicate Allowed(m: Machine, ins: Instr)
    requires WellFormed(m)
  {
    match ins
    case Return => m.sp > 0
    case Call(_) => m.sp < STACK_DEPTH
    case Draw(x, y, n) =>
      && (n == 0 || m.index + n <= MEMORY_SIZE)
      && Sprites.Fits(Sprites.Pattern(SpriteRows(m, n)), m.registers[x], m.registers[y])
    case SkipIfKey(x) => m.registers[x] < KEY_COUNT
    case SkipIfNotKey(x) => m.registers[x] < KEY_COUNT
    case StoreBcd(_) => m.index + 2 < MEMORY_SIZE
    case StoreRegs(x) => m.index + x < MEMORY_SIZE
    case LoadRegs(x) => m.index + x < MEMORY_SIZE
    case _ => true
  }

  /** The instruction at the program counter. */
  function Current(m: Machine): Instr
    requires WellFormed(m) && m.pc + 1 < MEMORY_SIZE
  {
    Decode(Fetch(m.memory, m.pc))
  }

  /** A cycle from `m` has defined behaviour: the fetch is inside memory and
      the fetched instruction is `Allowed`. */
  predicate Defined(m: Machine)
    requires WellFormed(m)
  {
    m.pc + 1 < MEMORY_SIZE && Allowed(m, Current(m))
  }

  /** The effect of one instruction, before the timer update. Writes happen in
      the order of the C code: in the 8XY_ family VF is written first and the
      result second, so for X = F the result overwrites (or is computed from)
      the flag. An unknown word changes nothing. */
  function Exec(m: Machine, ins: Instr, rnd: nat): (r: Machine)
    requires WellFormed(m) && Allowed(m, ins)
    ensures WellFormed(r)
    ensures r.keys == m.keys && r.romSize == m.romSize
  {
    if IsFlow(ins) then ExecFlow(m, ins)
    else if IsSkip(ins) then ExecSkip(m, ins)
    else if IsLoad(ins) then ExecLoad(m, ins, rnd)
    else if IsFlagged(ins) then ExecFlagged(m, ins)
    else if IsIndex(ins) then ExecIndex(m, ins)
    else if IsTransfer(ins) then ExecTransfer(m, ins)
    else if ins.Draw? then ExecDraw(m, ins.x, ins.y, ins.n)
    else if ins.WaitKey? then ExecWaitKey(m, ins.x)
    else m
  }

  /** 00E0, 00EE, 1NNN, 2NNN and BNNN. */
  predicate IsFlow(ins: Instr) {
    ins.ClearScreen? || ins.Return? || ins.Jump? || ins.Call? || ins.JumpOffset?
  }

  /** The conditional skips: 3XNN, 4XNN, 5XY0, 9XY0, EX9E and EXA1. */
  predicate IsSkip(ins: Instr) {
    || ins.SkipIfEqualImm? || ins.SkipIfNotEqualImm? || ins.SkipIfEqualReg? || ins.SkipIfNotEqualReg?
    || ins.SkipIfKey? || ins.SkipIfNotKey?
  }

  /** 6XNN, 7XNN, 8XY0 to 8XY3 and CXNN: VX is written and VF is not. */
  predicate IsLoad(ins: Instr) {
    ins.LoadImm? || ins.AddImm? || ins.Move? || ins.Or? || ins.And? || ins.Xor? || ins.Random?
  }

  /** 8XY4 to 8XYE: VF is written, then VX. */
  predicate IsFlagged(ins: Instr) {
    ins.AddReg? || ins.SubReg? || ins.ShiftRight? || ins.SubRev? || ins.ShiftLeft?
  }

  /** ANNN, FX07, FX15, FX18, FX1E and FX29: the index register and the timers. */
  predicate IsIndex(ins: Instr) {
    ins.LoadIndex? || ins.ReadDelay? || ins.SetDelay? || ins.SetSound? || ins.AddIndex? || ins.FontChar?
  }

  /** FX33, FX55 and FX65: transfers between registers and memory at I. */
  predicate IsTransfer(ins: Instr) {
    ins.StoreBcd? || ins.StoreRegs? || ins.LoadRegs?
  }

  /** Exec for the screen clear, jumps, calls and returns. */
  function ExecFlow(m: Machine, ins: Instr): (r: Machine)
    requires WellFormed(m) && Allowed(m, ins) && IsFlow(ins)
    ensures WellFormed(r)
    ensures r.keys == m.keys && r.romSize == m.romSize
    ensures r.registers == m.registers && r.memory == m.memory && r.index == m.index
    ensures r.delayTimer == m.delayTimer && r.soundTimer == m.soundTimer
  {
    match ins
    case ClearScreen => Next(m.(gfx := seq(PIXEL_COUNT, _ => 0), drawFlag := true))
    case Return => m.(sp := m.sp - 1, pc := Advance(m.stack[m.sp - 1], 2))
    case Jump(a) => m.(pc := a)
    case Call(a) => m.(stack := m.stack[m.sp := m.pc], sp := m.sp + 1, pc := a)
    case JumpOffset(a) => m.(pc := a + m.registers[0])
  }

  /** Exec for the conditional skips. */
  function ExecSkip(m: Machine, ins: Instr): (r: Machine)
    requires WellFormed(m) && Allowed(m, ins) && IsSkip(ins)
    ensures WellFormed(r)
    ensures r.keys == m.keys && r.romSize == m.romSize
    ensures r == m.(pc := r.pc)
    ensures r.pc == Advance(m.pc, 2) || r.pc == Advance(m.pc, 4)
  {
    var v := m.registers;
    match ins
    case SkipIfEqualImm(x, nn) => Skip(m, v[x] == nn)
    case SkipIfNotEqualImm(x, nn) => Skip(m, v[x] != nn)
    case SkipIfEqualReg(x, y) => Skip(m, v[x] == v[y])
    case SkipIfNotEqualReg(x, y) => Skip(m, v[x] != v[y])
    case SkipIfKey(x) => Skip(m, m.keys[v[x]] != 0)
    case SkipIfNotKey(x) => Skip(m, m.keys[v[x]] == 0)
  }

  /** Exec for the loads, 8XY0 to 8XY3 and CXNN. */
  function ExecLoad(m: Machine, ins: Instr, rnd: nat): (r: Machine)
    requires WellFormed(m) && IsLoad(ins)
    ensures WellFormed(r)
    ensures r.keys == m.keys && r.romSize == m.romSize
    ensures r == m.(registers := r.registers, pc := Advance(m.pc, 2))
    ensures forall i :: 0 <= i < REGISTER_COUNT && i != ins.x ==> r.registers[i] == m.registers[i]
  {
    var v := m.registers;
    match ins
    case LoadImm(x, nn) => Next(m.(registers := v[x := nn]))
    case AddImm(x, nn) => Next(m.(registers := v[x := Wrap8(v[x] as int + nn)]))
    case Move(x, y) => Next(m.(registers := v[x := v[y]]))
    case Or(x, y) => Next(m.(registers := v[x := Or8(v[x], v[y])]))
    case And(x, y) => Next(m.(registers := v[x := And8(v[x], v[y])]))
    case Xor(x, y) => Next(m.(registers := v[x := Xor8(v[x], v[y])]))
    case Random(x, nn) => Next(m.(registers := v[x := And8(rnd % 0xFF, nn)]))
  }

  /** Exec for 8XY4 to 8XYE: the flag goes to VF first, then VX gets the
      result computed from the registers as they are after that write. */
  function ExecFlagged(m: Machine, ins: Instr): (r: Machine)
    requires WellFormed(m) && IsFlagged(ins)
    ensures WellFormed(r)
    ensures r.keys == m.keys && r.romSize == m.romSize
    ensures r == m.(registers := r.registers, pc := Advance(m.pc, 2))
    ensures forall i :: 0 <= i < REGISTER_COUNT && i != ins.x && i != FLAG ==> r.registers[i] == m.registers[i]
  {
    var v := m.registers;
    match ins
    case AddReg(x, y) =>
      var vx, vy := v[x], v[y];
      var f := v[FLAG := if vy > vx then 1 else 0];
      Next(m.(registers := f[x := Wrap8(f[x] as int + vy)]))
    case SubReg(x, y) =>
      var vx, vy := v[x], v[y];
      var f := v[FLAG := if vy > vx then 0 else 1];
      Next(m.(registers := f[x := Wrap8(f[x] as int - vy)]))
    case ShiftRight(x) =>
      var f := v[FLAG := v[x] % 2];
      Next(m.(registers := f[x := f[x] / 2]))
    case SubRev(x, y) =>
      var vx, vy := v[x], v[y];
      var f := v[FLAG := if vx > vy then 0 else 1];
      Next(m.(registers := f[x := Wrap8(vy as int - vx)]))
    case ShiftLeft(x) =>
      var f := v[FLAG := v[x] / 0x80];
      Next(m.(registers := f[x := Wrap8(f[x] as int * 2)]))
  }

  /** Exec for the index register and the timers. */
  function ExecIndex(m: Machine, ins: Instr): (r: Machine)
    requires WellFormed(m) && IsIndex(ins)
    ensures WellFormed(r)
    ensures r.keys == m.keys && r.romSize == m.romSize
    ensures r == m.(registers := r.registers, index := r.index, delayTimer := r.delayTimer,
                    soundTimer := r.soundTimer, pc := Advance(m.pc, 2))
    ensures forall i :: 0 <= i < REGISTER_COUNT && i != FLAG && !(ins.ReadDelay? && i == ins.x) ==>
      r.registers[i] == m.registers[i]
  {
    var v := m.registers;
    match ins
    case LoadIndex(a) => Next(m.(index := a))
    case ReadDelay(x) => Next(m.(registers := v[x := m.delayTimer]))
    case SetDelay(x) => Next(m.(delayTimer := v[x]))
    case SetSound(x) => Next(m.(soundTimer := v[x]))
    case AddIndex(x) =>
      var vx := v[x];
      Next(m.(registers := v[FLAG := if m.index as int + vx > 0xFFF then 1 else 0],
              index := Wrap16(m.index as int + vx)))
    case FontChar(x) => Next(m.(index := FONT_START + (v[x] as int) * 5))
  }

  /** Exec for BCD and the block transfers at I, which stays where it is. */
  function ExecTransfer(m: Machine, ins: Instr): (r: Machine)
    requires WellFormed(m) && Allowed(m, ins) && IsTransfer(ins)
    ensures WellFormed(r)
    ensures r.keys == m.keys && r.romSize == m.romSize
    ensures r == m.(registers := r.registers, memory := r.memory, pc := Advance(m.pc, 2))
  {
    var v := m.registers;
    match ins
    case StoreBcd(x) =>
      var vx, i := v[x], m.index;
      Next(m.(memory := m.memory[i := vx / 100][i + 1 := (vx / 10) % 10][i + 2 := (vx % 100) % 10]))
    case StoreRegs(x) =>
      Next(m.(memory := m.memory[..m.index] + v[..x + 1] + m.memory[m.index + x + 1..]))
    case LoadRegs(x) =>
      Next(m.(registers := m.memory[m.index .. m.index + x + 1] + v[x + 1..]))
  }

  /** Exec for DXYN: the sprite at I drawn at (VX, VY), VF the collision flag. */
  function ExecDraw(m: Machine, x: Nibble, y: Nibble, n: Nibble): (r: Machine)
    requires WellFormed(m) && Allowed(m, Draw(x, y, n))
    ensures WellFormed(r)
    ensures r.keys == m.keys && r.romSize == m.romSize
    ensures r == m.(registers := r.registers, gfx := r.gfx, drawFlag := true, pc := Advance(m.pc, 2))
    ensures forall i :: 0 <= i < FLAG ==> r.registers[i] == m.registers[i]
  {
    var v := m.registers;
    var c := Sprites.Draw(m.gfx, Sprites.Pattern(SpriteRows(m, n)), v[x], v[y]);
    Next(m.(registers := v[FLAG := if c.collided then 1 else 0], gfx := c.pixels, drawFlag := true))
  }

  /** Exec for FX0A: with no key down nothing changes and the program counter
      stays put, so the cycle repeats. */
  function ExecWaitKey(m: Machine, x: Nibble): (r: Machine)
    requires WellFormed(m)
    ensures WellFormed(r)
    ensures r.keys == m.keys && r.romSize == m.romSize
    ensures r == m.(registers := r.registers, pc := r.pc)
    ensures r.pc == m.pc || r.pc == Advance(m.pc, 2)
  {
    var k := LastPressed(m.keys, KEY_COUNT);
    if k < 0 then m else Next(m.(registers := m.registers[x := k]))
  }

  /** The tail of every cycle that does not block: each timer that is not zero
      goes down by one, and the beep fires when the sound timer runs out. */
  function Tick(m: Machine): (r: (Machine, bool))
    ensures r.0 == m.(delayTimer := r.0.delayTimer, soundTimer := r.0.soundTimer)
    ensures m.delayTimer > 0 ==> r.0.delayTimer + 1 == m.delayTimer
    ensures m.soundTimer > 0 ==> r.0.soundTimer + 1 == m.soundTimer
    ensures m.delayTimer == 0 ==> r.0.delayTimer == 0
    ensures m.soundTimer == 0 ==> r.0.soundTimer == 0
    ensures r.1 <==> m.soundTimer > 0 && r.0.soundTimer == 0
  {
    var delay := if m.delayTimer > 0 then m.delayTimer - 1 else m.delayTimer;
    var beep := m.soundTimer == 1;
    var sound := if m.soundTimer > 0 then m.soundTimer - 1 else m.soundTimer;
    (m.(delayTimer := delay, soundTimer := sound), beep)
  }

  /** One call of `emulation_cycle`. */
  function Step(m: Machine, rnd: nat): (r: (Machine, Outcome))
    requires WellFormed(m) && Defined(m)
    ensures WellFormed(r.0)
    ensures r.1.Blocked? <==> Current(m).WaitKey? && LastPressed(m.keys, KEY_COUNT) < 0
    ensures r.1.Blocked? ==> r.0 == m
  {
    var ins := Current(m);
    if ins.WaitKey? && LastPressed(m.keys, KEY_COUNT) < 0 then (m, Blocked)
    else
      var t := Tick(Exec(m, ins, rnd));
      (t.0, Executed(ins.Unknown?, t.1))
  }
}
