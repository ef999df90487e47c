/** The emulator as the C code has it: one object whose fields the cycle
    updates in place, with the fixed-size buffers as arrays. Every method is
    proved to move the abstract state `State()` exactly as the functions of
    `MachineState` and `Interpreter` say. */
module Chip8 {
  import opened Types
  import opened Opcodes
  import opened MachineState
  import opened Interpreter
  import Sprites

  class Emulator {
    const memory: array<u8>
    var romSize: u32
    const registers: array<u8>
    var index: u16
    var pc: u16
    const gfx: array<bv32>
    var drawFlag: bool
    var delayTimer: u8
    var soundTimer: u8
    const stack: array<u16>
    var sp: u16
    /** Written by the host's input handling, only read here. */
    const keys: array<u8>

    /** The sizes of the struct's arrays, three distinct byte arrays, and a
        stack pointer that never passes the stack's depth. */
    ghost predicate Valid()
      reads this
    {
      && memory.Length == MEMORY_SIZE
      && registers.Length == REGISTER_COUNT
      && gfx.Length == PIXEL_COUNT
      && stack.Length == STACK_DEPTH
      && keys.Length == KEY_COUNT
      && memory != registers && memory != keys && registers != keys
      && sp <= STACK_DEPTH
    }

    /** The value of every field. */
    ghost function State(): (m: Machine)
      reads this, memory, registers, gfx, stack, keys
      requires Valid()
      ensures WellFormed(m)
    {
      Machine(memory[..], romSize, registers[..], index, pc, gfx[..], drawFlag,
              delayTimer, soundTimer, stack[..], sp, keys[..])
    }

    /** `struct emulator emu = {0}`. */
    constructor ()
      ensures Valid() && State() == Zeroed()
      ensures fresh(memory) && fresh(registers) && fresh(gfx) && fresh(stack) && fresh(keys)
    {
      memory := new u8[MEMORY_SIZE](_ => 0);
      registers := new u8[REGISTER_COUNT](_ => 0);
      gfx := new bv32[PIXEL_COUNT](_ => 0);
      stack := new u16[STACK_DEPTH](_ => 0);
      keys := new u8[KEY_COUNT](_ => 0);
      romSize, index, pc, drawFlag, delayTimer, soundTimer, sp := 0, 0, 0, false, 0, 0, 0;
      new;
      assert memory[..] == Zeroed().memory;
      assert registers[..] == Zeroed().registers;
      assert gfx[..] == Zeroed().gfx;
      assert stack[..] == Zeroed().stack;
      assert keys[..] == Zeroed().keys;
    }

    /** The core of `init`: the program counter goes to 0x200 and the font is
        copied to 0x50. */
    method Init()
      requires Valid()
      modifies this, memory
      ensures Valid() && State() == Initialised(old(State()))
    {
      pc := PROGRAM_START;
      for i := 0 to |FONT_SET|
        modifies memory
        invariant forall j :: 0 <= j < MEMORY_SIZE ==>
          memory[j] == if FONT_START <= j < FONT_START + i then FONT_SET[j - FONT_START] else old(memory[j])
      {
        memory[FONT_START + i] := FONT_SET[i];
      }
      assert memory[..] == Initialised(old(State())).memory;
    }

    /** The core of `load_rom`: the size check and the copy to 0x200. */
    method LoadRom(rom: seq<u8>) returns (ok: bool)
      requires Valid()
      modifies this, memory
      ensures Valid() && (ok, State()) == MachineState.LoadRom(old(State()), rom)
    {
      var availableMemory := 0xFFF - 0x200;
      if |rom| <= availableMemory {
        for i := 0 to |rom|
          modifies memory
          invariant forall j :: 0 <= j < MEMORY_SIZE ==>
            memory[j] == if PROGRAM_START <= j < PROGRAM_START + i then rom[j - PROGRAM_START] else old(memory[j])
        {
          memory[PROGRAM_START + i] := rom[i];
        }
        romSize := |rom|;
        ok := true;
        assert memory[..] == MachineState.LoadRom(old(State()), rom).1.memory;
      } else {
        ok := false;
      }
    }

    /** `emulation_cycle`: fetch, decode, execute, then the timers, except
        that FX0A with no key down returns before anything changes. */
    method Cycle(rnd: nat) returns (outcome: Outcome)
      requires Valid() && Defined(State())
      modifies this, memory, registers, gfx, stack
      ensures Valid() && (State(), outcome) == Step(old(State()), rnd)
    {
      ghost var m0 := State();
      var opcode := (memory[pc] as int) * 0x100 + memory[pc + 1];
      assert opcode == Fetch(m0.memory, m0.pc);
      var ins := Decode(opcode);
      var blocked := Execute(ins, rnd);
      if blocked {
        outcome := Blocked;
        return;
      }
      ghost var m1 := State();
      var beep := UpdateTimers();
      outcome := Executed(ins.Unknown?, beep);
      assert (State(), beep) == Tick(m1);
    }

    /** The `switch` of `emulation_cycle`; `blocked` is FX0A's early return. */
    method Execute(ins: Instr, rnd: nat) returns (blocked: bool)
      requires Valid() && Allowed(State(), ins)
      modifies this, memory, registers, gfx, stack
      ensures Valid() && State() == Exec(old(State()), ins, rnd)
      ensures blocked <==> ins.WaitKey? && LastPressed(old(keys[..]), KEY_COUNT) < 0
    {
      blocked := false;
      if IsFlow(ins) {
        ExecuteFlow(ins);
      } else if IsSkip(ins) {
        ExecuteSkip(ins);
      } else if IsLoad(ins) {
        ExecuteLoad(ins, rnd);
      } else if IsFlagged(ins) {
        ExecuteFlagged(ins);
      } else if IsIndex(ins) {
        ExecuteIndex(ins);
      } else if IsTransfer(ins) {
        ExecuteTransfer(ins);
      } else if ins.Draw? {
        DrawSprite(ins.x, ins.y, ins.n);
      } else if ins.WaitKey? {
        var pressed := WaitKey(ins.x);
        blocked := !pressed;
      }
    }

    /** The timer tail of a cycle: each running timer counts down by one and
        `beep` reports the sound timer reaching zero. */
    method UpdateTimers() returns (beep: bool)
      requires Valid()
      modifies this
      ensures Valid() && (State(), beep) == Tick(old(State()))
    {
      beep := false;
      if delayTimer > 0 {
        delayTimer := delayTimer - 1;
      }
      if soundTimer > 0 {
        if soundTimer == 1 {
          beep := true;
        }
        soundTimer := soundTimer - 1;
      }
    }

    /** 00E0, 00EE, 1NNN, 2NNN and BNNN. */
    method ExecuteFlow(ins: Instr)
      requires Valid() && Allowed(State(), ins) && IsFlow(ins)
      modifies this, gfx, stack
      ensures Valid() && State() == ExecFlow(old(State()), ins)
    {
      match ins
      case ClearScreen =>
        ClearScreen();
      case Return =>
        sp := sp - 1;
        var address := stack[sp];
        pc := address;
        pc := Advance(pc, 2);
      case Jump(a) =>
        pc := a;
      case Call(a) =>
        stack[sp] := pc;
        sp := sp + 1;
        pc := a;
      case JumpOffset(a) =>
        pc := a + registers[0];
    }

    /** 00E0: every pixel cleared. */
    method ClearScreen()
      requires Valid()
      modifies this, gfx
      ensures Valid() && State() == ExecFlow(old(State()), Instr.ClearScreen)
    {
      for i := 0 to PIXEL_COUNT
        modifies gfx
        invariant forall j :: 0 <= j < i ==> gfx[j] == 0
      {
        gfx[i] := 0;
      }
      assert gfx[..] == seq(PIXEL_COUNT, _ => 0);
      drawFlag := true;
      pc := Advance(pc, 2);
    }

    /** 3XNN, 4XNN, 5XY0, 9XY0, EX9E and EXA1. */
    method ExecuteSkip(ins: Instr)
      requires Valid() && Allowed(State(), ins) && IsSkip(ins)
      modifies this
      ensures Valid() && State() == ExecSkip(old(State()), ins)
    {
      if ins.SkipIfKey? || ins.SkipIfNotKey? {
        ExecuteKeySkip(ins);
      } else {
        ExecuteRegisterSkip(ins);
      }
    }

    /** 3XNN, 4XNN, 5XY0 and 9XY0: comparisons of registers. */
    method ExecuteRegisterSkip(ins: Instr)
      requires Valid()
      requires ins.SkipIfEqualImm? || ins.SkipIfNotEqualImm? || ins.SkipIfEqualReg? || ins.SkipIfNotEqualReg?
      modifies this
      ensures Valid() && State() == ExecSkip(old(State()), ins)
    {
      match ins {
      case SkipIfEqualImm(x, nn) =>
        pc := if registers[x] == nn then Advance(pc, 4) else Advance(pc, 2);
      case SkipIfNotEqualImm(x, nn) =>
        pc := if registers[x] != nn then Advance(pc, 4) else Advance(pc, 2);
      case SkipIfEqualReg(x, y) =>
        pc := if registers[x] == registers[y] then Advance(pc, 4) else Advance(pc, 2);
      case SkipIfNotEqualReg(x, y) =>
        pc := if registers[x] != registers[y] then Advance(pc, 4) else Advance(pc, 2);
      }
    }

    /** EX9E and EXA1: the state of the key numbered VX. */
    method ExecuteKeySkip(ins: Instr)
      requires Valid() && Allowed(State(), ins) && (ins.SkipIfKey? || ins.SkipIfNotKey?)
      modifies this
      ensures Valid() && State() == ExecSkip(old(State()), ins)
    {
      match ins {
      case SkipIfKey(x) =>
        pc := if keys[registers[x]] != 0 then Advance(pc, 4) else Advance(pc, 2);
      case SkipIfNotKey(x) =>
        pc := if keys[registers[x]] == 0 then Advance(pc, 4) else Advance(pc, 2);
      }
    }

    /** 6XNN, 7XNN, 8XY0 to 8XY3 and CXNN: VX is written, VF is untouched
        (unless it is VX). */
    method ExecuteLoad(ins: Instr, rnd: nat)
      requires Valid() && IsLoad(ins)
      modifies this, registers
      ensures Valid() && State() == ExecLoad(old(State()), ins, rnd)
    {
      match ins {
      case LoadImm(x, nn) =>
        registers[x] := nn;
      case AddImm(x, nn) =>
        registers[x] := Wrap8(registers[x] as int + nn);
      case Move(x, y) =>
        registers[x] := registers[y];
      case Or(x, y) =>
        var vy := registers[y];
        registers[x] := Or8(registers[x], vy);
      case And(x, y) =>
        var vy := registers[y];
        registers[x] := And8(registers[x], vy);
      case Xor(x, y) =>
        var vy := registers[y];
        registers[x] := Xor8(registers[x], vy);
      case Random(x, nn) =>
        registers[x] := And8(rnd % 0xFF, nn);
      }
      pc := Advance(pc, 2);
    }

    /** 8XY4 to 8XYE: VF is written first, then VX. */
    method ExecuteFlagged(ins: Instr)
      requires Valid() && IsFlagged(ins)
      modifies this, registers
      ensures Valid() && State() == ExecFlagged(old(State()), ins)
    {
      if ins.ShiftRight? || ins.ShiftLeft? {
        ExecuteShift(ins);
      } else if ins.AddReg? {
        ExecuteAdd(ins.x, ins.y);
      } else {
        ExecuteSub(ins);
      }
    }

    /** 8XY4: VF gets the flag, then VX the wrapped sum. */
    method ExecuteAdd(x: Nibble, y: Nibble)
      requires Valid()
      modifies this, registers
      ensures Valid() && State() == ExecFlagged(old(State()), AddReg(x, y))
    {
      var vx, vy := registers[x], registers[y];
      if vy > vx {
        registers[FLAG] := 1;
      } else {
        registers[FLAG] := 0;
      }
      registers[x] := Wrap8(registers[x] as int + vy);
      pc := Advance(pc, 2);
    }

    /** 8XY5 and 8XY7: VF gets the no-borrow flag, then VX the wrapped difference. */
    method ExecuteSub(ins: Instr)
      requires Valid() && (ins.SubReg? || ins.SubRev?)
      modifies this, registers
      ensures Valid() && State() == ExecFlagged(old(State()), ins)
    {
      match ins {
      case SubReg(x, y) =>
        var vx, vy := registers[x], registers[y];
        if vy > vx {
          registers[FLAG] := 0;
        } else {
          registers[FLAG] := 1;
        }
        registers[x] := Wrap8(registers[x] as int - vy);
      case SubRev(x, y) =>
        var vx, vy := registers[x], registers[y];
        if vx > vy {
          registers[FLAG] := 0;
        } else {
          registers[FLAG] := 1;
        }
        registers[x] := Wrap8(vy as int - vx);
      }
      pc := Advance(pc, 2);
    }

    /** 8XY6 and 8XYE: VF gets the bit shifted out. */
    method ExecuteShift(ins: Instr)
      requires Valid() && (ins.ShiftRight? || ins.ShiftLeft?)
      modifies this, registers
      ensures Valid() && State() == ExecFlagged(old(State()), ins)
    {
      match ins {
      case ShiftRight(x) =>
        var vx := registers[x];
        registers[FLAG] := vx % 2;
        registers[x] := registers[x] / 2;
      case ShiftLeft(x) =>
        registers[FLAG] := registers[x] / 0x80;
        registers[x] := Wrap8(registers[x] as int * 2);
      }
      pc := Advance(pc, 2);
    }

    /** ANNN, FX07, FX15, FX18, FX1E and FX29. */
    method ExecuteIndex(ins: Instr)
      requires Valid() && IsIndex(ins)
      modifies this, registers
      ensures Valid() && State() == ExecIndex(old(State()), ins)
    {
      match ins {
      case LoadIndex(a) =>
        index := a;
      case ReadDelay(x) =>
        registers[x] := delayTimer;
      case SetDelay(x) =>
        delayTimer := registers[x];
      case SetSound(x) =>
        soundTimer := registers[x];
      case AddIndex(x) =>
        var vx := registers[x];
        if index as int + vx > 0xFFF {
          registers[FLAG] := 1;
        } else {
          registers[FLAG] := 0;
        }
        index := Wrap16(index as int + vx);
      case FontChar(x) =>
        var vx := registers[x];
        index := FONT_START + (vx as int) * 5;
      }
      pc := Advance(pc, 2);
    }

    /** FX33, FX55 and FX65. */
    method ExecuteTransfer(ins: Instr)
      requires Valid() && Allowed(State(), ins) && IsTransfer(ins)
      modifies this, memory, registers
      ensures Valid() && State() == ExecTransfer(old(State()), ins)
    {
      match ins
      case StoreBcd(x) =>
        var i, vx := index, registers[x];
        memory[i] := vx / 100;
        memory[i + 1] := (vx / 10) % 10;
        memory[i + 2] := (vx % 100) % 10;
        pc := Advance(pc, 2);
      case StoreRegs(x) =>
        StoreRegisters(x);
      case LoadRegs(x) =>
        LoadRegisters(x);
    }

    /** DXYN: the nested loops over rows and columns, VF cleared first and set
        on any collision. */
    method DrawSprite(x: Nibble, y: Nibble, n: Nibble)
      requires Valid() && Allowed(State(), Draw(x, y, n))
      modifies this, registers, gfx
      ensures Valid() && State() == ExecDraw(old(State()), x, y, n)
    {
      var vx, vy := registers[x], registers[y];
      var height := n;
      ghost var rows := SpriteRows(State(), n);
      ghost var pattern := Sprites.Pattern(rows);
      ghost var start := gfx[..];
      registers[FLAG] := 0;
      var row := 0;
      while row < height
        modifies registers, gfx
        invariant 0 <= row <= height
        invariant Painted(start, pattern, vx, vy, Sprites.SPRITE_WIDTH * row)
        invariant forall i :: 0 <= i < FLAG ==> registers[i] == old(registers[i])
      {
        var sprite := memory[index + row];
        DrawRow(vx, vy, row, sprite, start, rows);
        row := row + 1;
      }
      assert registers[..] == old(registers[..])[FLAG := registers[FLAG]];
      drawFlag := true;
      pc := Advance(pc, 2);
    }

    /** The frame buffer and VF hold the canvas after the first `k` positions
        of the sprite pattern drawn over `start`. */
    ghost predicate Painted(start: seq<bv32>, pattern: seq<bool>, vx: u8, vy: u8, k: nat)
      reads this, registers, gfx
      requires Valid() && |start| == PIXEL_COUNT && k <= |pattern|
    {
      var c := Sprites.DrawUpTo(start, pattern, vx, vy, k);
      gfx[..] == c.pixels && registers[FLAG] == if c.collided then 1 else 0
    }

    /** The inner loop of DXYN: the eight columns of sprite row `sprite`. */
    method DrawRow(vx: u8, vy: u8, row: nat, sprite: u8, ghost start: seq<bv32>, ghost rows: seq<u8>)
      requires Valid() && |start| == PIXEL_COUNT && Sprites.Fits(Sprites.Pattern(rows), vx, vy)
      requires row < |rows| && rows[row] == sprite
      requires Painted(start, Sprites.Pattern(rows), vx, vy, Sprites.SPRITE_WIDTH * row)
      modifies registers, gfx
      ensures Painted(start, Sprites.Pattern(rows), vx, vy, Sprites.SPRITE_WIDTH * (row + 1))
      ensures forall i :: 0 <= i < FLAG ==> registers[i] == old(registers[i])
    {
      var width := Sprites.SPRITE_WIDTH;
      var col := 0;
      while col < width
        modifies registers, gfx
        invariant 0 <= col <= width
        invariant Painted(start, Sprites.Pattern(rows), vx, vy, Sprites.SPRITE_WIDTH * row + col)
        invariant forall i :: 0 <= i < FLAG ==> registers[i] == old(registers[i])
      {
        DrawPixel(vx, vy, row, col, sprite, start, rows);
        col := col + 1;
      }
    }

    /** The inner loop body of DXYN: column `col` of the row, drawn when its
        bit is set. */
    method DrawPixel(vx: u8, vy: u8, row: nat, col: nat, sprite: u8, ghost start: seq<bv32>, ghost rows: seq<u8>)
      requires Valid() && |start| == PIXEL_COUNT && Sprites.Fits(Sprites.Pattern(rows), vx, vy)
      requires row < |rows| && rows[row] == sprite && col < Sprites.SPRITE_WIDTH
      requires Painted(start, Sprites.Pattern(rows), vx, vy, Sprites.SPRITE_WIDTH * row + col)
      modifies registers, gfx
      ensures Painted(start, Sprites.Pattern(rows), vx, vy, Sprites.SPRITE_WIDTH * row + col + 1)
      ensures forall i :: 0 <= i < FLAG ==> registers[i] == old(registers[i])
    {
      Sprites.PatternAt(rows, row, col);
      Sprites.DrawStep(start, Sprites.Pattern(rows), vx, vy, row, col);
      if Sprites.MaskTest(sprite, col) {
        var destX := if vx + col > SCREEN_WIDTH then SCREEN_WIDTH else vx + col;
        var destY := if vy + row > SCREEN_HEIGHT then SCREEN_HEIGHT else vy + row;
        var dest := destY * SCREEN_WIDTH + destX;
        assert dest == Sprites.Dest(vx, vy, col, row);
        Plot(dest);
      }
    }

    /** One set sprite bit landing on cell `dest`: VF is set if the cell was
        lit, and the cell is inverted. */
    method Plot(dest: nat)
      requires Valid() && dest < PIXEL_COUNT
      modifies registers, gfx
      ensures gfx[..] == old(gfx[..])[dest := old(gfx[dest]) ^ PIXEL_ON]
      ensures registers[FLAG] == if old(gfx[dest]) == PIXEL_ON then 1 else old(registers[FLAG])
      ensures forall i :: 0 <= i < FLAG ==> registers[i] == old(registers[i])
    {
      if gfx[dest] == PIXEL_ON {
        registers[FLAG] := 1;
      }
      gfx[dest] := gfx[dest] ^ PIXEL_ON;
    }

    /** FX0A's scan: no early exit, so the highest pressed key ends in VX. */
    method WaitKey(x: Nibble) returns (pressed: bool)
      requires Valid()
      modifies this, registers
      ensures Valid() && pressed == (LastPressed(old(keys[..]), KEY_COUNT) >= 0)
      ensures State() == ExecWaitKey(old(State()), x)
    {
      var keyPressed := false;
      for i := 0 to KEY_COUNT
        modifies registers
        invariant keyPressed == (LastPressed(keys[..], i) >= 0)
        invariant registers[..] ==
          if keyPressed then old(registers[..])[x := LastPressed(keys[..], i)] else old(registers[..])
      {
        if keys[i] != 0 {
          registers[x] := i;
          keyPressed := true;
        }
      }
      if keyPressed {
        pc := Advance(pc, 2);
      }
      pressed := keyPressed;
    }

    /** FX55: V0 to VX inclusive stored at I; I itself is left alone. */
    method StoreRegisters(x: Nibble)
      requires Valid() && Allowed(State(), StoreRegs(x))
      modifies this, memory
      ensures Valid() && State() == ExecTransfer(old(State()), StoreRegs(x))
    {
      CopyRegistersOut(x);
      pc := Advance(pc, 2);
    }

    /** The FX55 loop: bytes I to I + X become V0 to VX, every other byte stays. */
    method CopyRegistersOut(x: Nibble)
      requires Valid() && index as int + x < MEMORY_SIZE
      modifies memory
      ensures memory[..] == old(memory[..])[..index] + registers[..x + 1] + old(memory[..])[index + x + 1..]
    {
      for i := 0 to x + 1
        modifies memory
        invariant forall j :: 0 <= j < MEMORY_SIZE ==>
          memory[j] == if index <= j < index + i then registers[j - index] else old(memory[j])
      {
        memory[index + i] := registers[i];
      }
    }

    /** FX65: V0 to VX inclusive loaded from I; I itself is left alone. */
    method LoadRegisters(x: Nibble)
      requires Valid() && Allowed(State(), LoadRegs(x))
      modifies this, registers
      ensures Valid() && State() == ExecTransfer(old(State()), LoadRegs(x))
    {
      for i := 0 to x + 1
        modifies registers
        invariant forall j :: 0 <= j < REGISTER_COUNT ==>
          registers[j] == if j < i then memory[index + j] else old(registers[j])
      {
        registers[i] := memory[index + i];
      }
      assert registers[..] == memory[index .. index + x + 1] + old(registers[..])[x + 1..];
      pc := Advance(pc, 2);
    }
  }
}
