# CHIP-8 interpreter core, modelled in Dafny

This project models the emulator core of `src/app.c`, a small C CHIP-8
emulator. It covers:

- the state of `struct emulator` without its SDL handles: 4 KiB of memory,
  sixteen 8-bit registers with VF as the flag register, the 16-bit index
  register and program counter, the 64x32 frame buffer of 32-bit cells, the
  draw flag, the delay and sound timers, the 16-entry call stack with its
  pointer, and the keypad;
- the built-in font and the part of `init` that places it at 0x50 and sets
  the program counter to 0x200;
- the size check and byte copy of `load_rom`;
- `emulation_cycle`: fetch of a big-endian word, the two-level dispatch, the
  execution of every opcode with the C code's exact 8- and 16-bit
  wrap-around, and the timer update at the end of the cycle.

The model has two layers.

- **Pure layer.** The modules `MachineState`, `Opcodes`, `Sprites` and
  `Interpreter` describe a cycle as a function `Step` from one machine value
  to the next. `Opcodes.Decode` turns the 16-bit word into a tagged
  instruction. `Interpreter.Exec` gives each instruction's effect, and
  `Interpreter.Tick` gives the timer tail.
- **Imperative layer.** The module `Chip8` is the C struct as a class,
  `Chip8.Emulator`. It keeps the C code's fixed-size buffers as arrays and
  updates the fields in place with the C code's loops. Each method is proved
  to move the abstract state `State()` exactly as the pure layer says. For
  example, `Cycle` ensures `(State(), outcome) == Step(old(State()), rnd)`.

The module `Properties` proves what the instructions promise: skips,
call/return, the flag semantics of 8XY4 to 8XYE, BCD, the block transfers,
the key wait, the timers and the screen. These are stated about `Exec` and
`Step`.

The C code indexes its arrays without checks. Those indexings are
preconditions, stated by `Interpreter.Allowed` and `Interpreter.Defined`:

- the fetch stays inside memory (`pc + 1 < 4096`);
- a call needs a free stack slot and a return needs a non-empty stack;
- EX9E and EXA1 need VX < 16;
- DXYN, FX33, FX55 and FX65 need their bytes at I to lie inside memory;
- every set sprite bit must land, after the clamp at the right and bottom
  edges, inside the 2048-cell frame buffer.

The random number of CXNN is a parameter `rnd`, since `rand()` is foreign
code. The two diagnostics the cycle prints, "Unknown opcode" and "BEEP!",
are reported as the fields of `Interpreter.Outcome`.

Behaviours the model keeps exactly as the code has them:

- **8XY4's flag.** VF is set to 1 when VY > VX, which is not the carry.
  0xFF + 0x01 therefore leaves VF at 0, where Cowgod's CHIP-8 technical
  reference (section 3.1, 8xy4) sets VF to the carry, 1. The model follows
  the code (`Properties.AddRegFlagIsNotCarry`).
- **FX0A's key choice.** The scan has no early exit, so the
  highest-numbered key that is down ends in VX
  (`Properties.WaitKeyHighest`).
- **FX1E's flag.** FX1E writes VF although its comment says it does not.
- **VF as the destination.** In 8XY4 to 8XYE the flag is written before the
  result. With X = F the result therefore overwrites, or is computed from,
  the flag.
- **CXNN.** The random value is reduced with `% 0xFF`, not `% 0x100`.
- **DXYN's coordinates.** The clamp uses the raw VX and VY. The wrapped
  coordinates the C code computes are never used.
- **Unknown words.** A word that matches no case leaves the program counter
  where it is, but the timers still tick.
- **Blocked FX0A.** When no key is down, FX0A returns before the timer
  update, so nothing changes at all.
- **Uninspected bits.** Families 0, 5 and 9 ignore the bits their second
  level does not look at. For example, 0x5121 is a 5XY0.

## Model

| member | source | states |
|---|---|---|
| Types.Wrap8 | src/app.c:369 | storing an int-promoted result into a `u8` keeps it when it is in range, and subtracts or adds 256 when one addition or subtraction over- or underflows |
| Types.Wrap16 | src/app.c:709 | storing into a `u16` keeps the value when it is in range and subtracts 65536 after one overflow |
| Types.AndWithinMask | src/app.c:536 | the bits of `a & nn` are a subset of the bits of `nn` |
| Opcodes.Fetch | src/app.c:248 | the opcode's high byte is `memory[pc]` and its low byte is `memory[pc + 1]` |
| Opcodes.Family | src/app.c:250 | the top nibble `opcode & 0xF000` the outer switch dispatches on; its meaning is stated by `Opcodes.Fields` |
| Opcodes.X | src/app.c:16 | the `VX` macro, the second nibble; stated by `Opcodes.Fields` |
| Opcodes.Y | src/app.c:17 | the `VY` macro, the third nibble; stated by `Opcodes.Fields` |
| Opcodes.N | src/app.c:374 | `opcode & 0x000F`, the low nibble of family 8 and the height of DXYN; stated by `Opcodes.Fields` |
| Opcodes.NN | src/app.c:254 | `opcode & 0x00FF`, the low byte of families 0, E and F and the immediates; stated by `Opcodes.Fields` |
| Opcodes.NNN | src/app.c:286 | `opcode & 0x0FFF`, the address of 1NNN, 2NNN, ANNN and BNNN; stated by `Opcodes.Fields` |
| Opcodes.Fields | src/app.c:16-17 | the masks and macros read back exactly the four nibbles a word is built from; NN is the low byte and NNN the low twelve bits |
| Opcodes.Split | src/app.c:250 | every 16-bit word is the word of its own four nibbles, so the masks lose nothing |
| Opcodes.Decode | src/app.c:250-785 | an `Unknown` result, the `default` branches, carries the word that produced it |
| Opcodes.Dispatch | src/app.c:250-785 | the dispatch on the top nibble and then the low byte or low nibble; an unknown result carries the word |
| Opcodes.DecodeEncode | src/app.c:250-785 | every known instruction is recovered by decoding its canonical word, so every case of the switch is reachable and none overlaps another |
| Opcodes.UnknownWords | src/app.c:277-280 | a word is unknown exactly when its family is 0, 8, E or F and its second-level field matches none of that family's cases: the inner `default` branches at 277-280, 492-495, 632-635 and 775-778; no word reaches the outer one at 781-784 |
| MachineState.Zeroed | src/app.c:806 | the zero-initialised struct: memory, registers, frame buffer, stack and keys are all zero; stack pointer, program counter, index, both timers and `rom_size` are 0 and the draw flag is clear |
| MachineState.Initialised | src/app.c:108-115 | after `init`, PC is 0x200 and `memory[0x50 + i] == font_set[i]` for i < 80; every other byte and field is unchanged |
| MachineState.LoadRom | src/app.c:142-163 | a ROM is accepted exactly when its length is at most 0xFFF - 0x200; then it lies at 0x200, `rom_size` is its length and no other byte changes; otherwise the machine is unchanged |
| Sprites.MaskTest | src/app.c:576 | the C test `row & (0x80 >> x)` equals the column's bit, most significant bit first |
| Sprites.Pattern | src/app.c:571-577 | the sprite's bits in the order the nested loops visit them: 8 per row |
| Sprites.PatternAt | src/app.c:571-577 | position `8 * row + col` of the pattern is column `col` of row `row` |
| Sprites.Dest | src/app.c:580-582 | on screen the clamped index is the pixel itself; a column clamped to 64 lands on the first pixel of the next line, and a line clamped to 32 falls past the 2048-cell buffer |
| Sprites.DrawUpTo | src/app.c:570-591 | the frame buffer and collision flag after the loops have visited the first k positions keep the buffer's size |
| Sprites.Draw | src/app.c:570-591 | the whole sprite drawn keeps the frame buffer's size |
| Sprites.DrawStep | src/app.c:576-589 | visiting column `col` of row `row` XORs the clamped destination with 0xFFFFFFFF when the bit is set, and sets the flag if that cell was fully lit; an unset bit changes nothing |
| Sprites.DrawUpToPixels | src/app.c:583-588 | each cell ends inverted exactly when an odd number of set bits targeted it |
| Sprites.PixelStep | src/app.c:583-588 | one position inverts cell i exactly when its bit is set and aimed at i |
| Sprites.ToggleCompose | src/app.c:588 | two XORs with 0xFFFFFFFF amount to one exactly when one of them happens |
| Sprites.DrawTwiceRestores | src/app.c:570-591 | drawing the same sprite at the same place twice gives back the frame buffer |
| Sprites.DrawKeepsMonochrome | src/app.c:588 | a frame buffer of 0 and 0xFFFFFFFF cells stays that way after a draw |
| Sprites.CollisionWitness | src/app.c:583-586 | the collision flag is set exactly when some drawn bit met a cell that was fully lit when the loop reached it |
| Sprites.UnclippedIsDistinct | src/app.c:580-582 | a sprite that fits on screen without clamping has every bit on a cell of its own, inside the buffer |
| Sprites.FlippedOnce | src/app.c:583-588 | with distinct targets, a set bit's cell is inverted once the loop has passed that bit, and not before |
| Sprites.CollidedStays | src/app.c:585 | once set, the collision flag stays set for the rest of the sprite |
| Sprites.NothingBeforeFirstBit | src/app.c:577 | positions before the first set bit change nothing |
| Sprites.DrawTwiceOnDark | src/app.c:570-591 | on a dark screen a sprite with distinct targets draws without collision, and drawing it again collides exactly when it has a set bit |
| Sprites.DarkDrawNoCollision | src/app.c:583-586 | on a dark screen with distinct targets, no drawn bit meets a lit cell |
| Sprites.FirstLit | src/app.c:577 | a sprite with a set bit has a first one |
| Sprites.RedrawHitsFirstBit | src/app.c:583-586 | redrawing over a dark screen's first drawing meets a lit cell at the first set bit |
| Interpreter.Advance | src/app.c:264 | `program_counter += k` on the 16-bit counter, wrapping modulo 65536 |
| Interpreter.Allowed | src/app.c:271-768 | the in-bounds conditions of the C code's unchecked indexing: a non-empty stack for 00EE (271), a free slot for 2NNN (293), sprite rows and every clamped set pixel inside memory and `gfx` for DXYN (573, 583-588), a key number below 16 for EX9E and EXA1 (607, 623), and room at I for FX33, FX55 and FX65 (736-738, 751, 768) |
| Interpreter.Defined | src/app.c:248 | a cycle is defined when the fetch of `memory[pc + 1]` is in bounds and the fetched instruction is `Allowed` |
| Interpreter.LastPressed | src/app.c:656-666 | the scan's result is a key that is down with all higher keys up, or -1 exactly when all keys are up |
| Interpreter.SpriteRows | src/app.c:573 | N rows, row j being `memory[I + j]` |
| Interpreter.Exec | src/app.c:250-785 | an instruction keeps the array sizes and the stack bound, and never writes the keypad or `rom_size` |
| Interpreter.ExecFlow | src/app.c:252-297 | 00E0, 00EE, 1NNN and 2NNN (BNNN at 524-530) keep the machine well formed and leave registers, memory, I and timers alone |
| Interpreter.ExecSkip | src/app.c:298-353 | the skips (also 9XY0 at 498-515 and EX9E and EXA1 at 600-631) change only PC, by 2 or by 4 |
| Interpreter.ExecLoad | src/app.c:354-411 | 6XNN, 7XNN and 8XY0 to 8XY3 (CXNN at 531-538) change only VX and advance PC by 2 |
| Interpreter.ExecFlagged | src/app.c:412-491 | 8XY4 to 8XYE change only VX and VF and advance PC by 2 |
| Interpreter.ExecIndex | src/app.c:642-722 | ANNN (516-523), FX07, FX15, FX18, FX1E and FX29 change only VF, VX (FX07 only), I and the timers, and advance PC by 2 |
| Interpreter.ExecTransfer | src/app.c:723-774 | FX33, FX55 and FX65 change only registers and memory, keep I, and advance PC by 2 |
| Interpreter.ExecDraw | src/app.c:539-595 | DXYN changes only the frame buffer and VF, raises the draw flag and advances PC by 2 |
| Interpreter.ExecWaitKey | src/app.c:650-676 | FX0A changes only registers and PC, which either stays or advances by 2 |
| Interpreter.Tick | src/app.c:787-799 | each nonzero timer drops by one, a zero timer stays zero, nothing else changes, and the beep fires exactly when the sound timer goes from 1 to 0 |
| Interpreter.Step | src/app.c:245-800 | a cycle is blocked exactly on FX0A with no key down, and then changes nothing; the machine stays well formed |
| Chip8.Emulator.constructor | src/app.c:806 | the new object's state is the zeroed struct |
| Chip8.Emulator.Init | src/app.c:108-115 | the font loop and PC assignment produce `Initialised` |
| Chip8.Emulator.LoadRom | src/app.c:142-163 | the size check and the copy loop produce `LoadRom`'s result and verdict |
| Chip8.Emulator.Cycle | src/app.c:245-800 | one call of `emulation_cycle` moves the state and reports the outcome exactly as `Step` |
| Chip8.Emulator.Execute | src/app.c:250-785 | the switch moves the state as `Exec`; `blocked` holds exactly for FX0A with every key up |
| Chip8.Emulator.UpdateTimers | src/app.c:787-799 | the timer tail moves the state as `Tick` and reports the beep |
| Chip8.Emulator.ExecuteFlow | src/app.c:252-297 | the in-place updates of 00E0, 00EE, 1NNN, 2NNN and BNNN match `ExecFlow` |
| Chip8.Emulator.ClearScreen | src/app.c:256-265 | the clearing loop zeroes all 2048 cells, raises the draw flag and advances PC |
| Chip8.Emulator.ExecuteSkip | src/app.c:298-353 | the six skips match `ExecSkip` |
| Chip8.Emulator.ExecuteRegisterSkip | src/app.c:298-353 | 3XNN, 4XNN, 5XY0 and 9XY0 match `ExecSkip` |
| Chip8.Emulator.ExecuteKeySkip | src/app.c:596-631 | EX9E and EXA1 match `ExecSkip` |
| Chip8.Emulator.ExecuteLoad | src/app.c:354-411 | 6XNN, 7XNN, 8XY0 to 8XY3 and CXNN match `ExecLoad` |
| Chip8.Emulator.ExecuteFlagged | src/app.c:412-491 | 8XY4 to 8XYE match `ExecFlagged` |
| Chip8.Emulator.ExecuteAdd | src/app.c:412-431 | 8XY4, flag first and sum second, matches `ExecFlagged` |
| Chip8.Emulator.ExecuteSub | src/app.c:432-482 | 8XY5 and 8XY7, flag first and difference second, match `ExecFlagged` |
| Chip8.Emulator.ExecuteShift | src/app.c:453-491 | 8XY6 and 8XYE match `ExecFlagged` |
| Chip8.Emulator.ExecuteIndex | src/app.c:642-722 | ANNN, FX07, FX15, FX18, FX1E and FX29 match `ExecIndex` |
| Chip8.Emulator.ExecuteTransfer | src/app.c:723-774 | FX33, FX55 and FX65 match `ExecTransfer` |
| Chip8.Emulator.DrawSprite | src/app.c:539-595 | the nested loops leave the frame buffer and VF as `Sprites.Draw` of the pattern at I, raise the draw flag and advance PC |
| Chip8.Emulator.DrawRow | src/app.c:574-590 | the inner loop extends the drawing by one sprite row and leaves V0 to VE alone |
| Chip8.Emulator.DrawPixel | src/app.c:576-589 | one inner-loop pass extends the drawing by one position |
| Chip8.Emulator.Plot | src/app.c:583-588 | the cell is XORed with 0xFFFFFFFF and VF is set if the cell was fully lit |
| Chip8.Emulator.WaitKey | src/app.c:650-676 | the key scan leaves the highest pressed key in VX and advances PC, and reports whether any key is down |
| Chip8.Emulator.StoreRegisters | src/app.c:742-757 | FX55 matches `ExecTransfer` |
| Chip8.Emulator.CopyRegistersOut | src/app.c:748-752 | the FX55 loop writes V0 to VX at I to I + X and no other byte |
| Chip8.Emulator.LoadRegisters | src/app.c:758-774 | the FX65 loop reads V0 to VX from I to I + X and nothing else |
| Properties.SkipMovesOnlyPc | src/app.c:298-353 | a skip advances PC by 4 when its condition holds and by 2 otherwise, and changes nothing else |
| Properties.ImmediateSkipsComplement | src/app.c:298-335 | from the same state exactly one of 3XNN and 4XNN skips |
| Properties.RegisterSkipsComplement | src/app.c:336-353 | from the same state exactly one of 5XY0 and 9XY0 skips |
| Properties.KeySkipsComplement | src/app.c:596-631 | from the same state exactly one of EX9E and EXA1 skips |
| Properties.ReturnPops | src/app.c:266-276 | a lone 00EE decrements the stack pointer and resumes at the popped address + 2, changing nothing else |
| Properties.JumpTargets | src/app.c:283-287 | 1NNN sets PC to NNN and BNNN (524-530) to NNN + V0; nothing else changes |
| Properties.CallPushesPc | src/app.c:288-297 | 2NNN pushes the PC of the call itself, increments the stack pointer, jumps to NNN and changes no other stack slot |
| Properties.CallThenReturn | src/app.c:266-297 | a call followed by a return restores the stack pointer and lands at the call site + 2 |
| Properties.LoadValues | src/app.c:354-384 | 6XNN sets VX to NN, 7XNN to (VX + NN) mod 256 leaving VF alone unless X = F, 8XY0 to VY |
| Properties.BitwiseValues | src/app.c:385-411 | 8XY1, 8XY2 and 8XY3 set VX to VX or VY, VX and VY, VX xor VY bitwise |
| Properties.AddRegFlags | src/app.c:412-431 | for X != F, VF = 1 iff VY > VX and VX is the sum modulo 256; only VX, VF and PC change |
| Properties.AddRegFlagIsNotCarry | src/app.c:416-429 | 0xFF + 0x01 gives VX = 0 and VF = 0 |
| Properties.SubRegFlags | src/app.c:432-452 | for X != F, VF = 1 iff VY <= VX and VX is the difference modulo 256; only VX, VF and PC change |
| Properties.SubRevFlags | src/app.c:463-482 | for X != F, VF = 1 iff VX <= VY and VX is VY - VX modulo 256; only VX, VF and PC change |
| Properties.ShiftRightFlags | src/app.c:453-462 | for X != F, VF is the bit shifted out and 2 * VX' + VF == VX |
| Properties.ShiftLeftFlags | src/app.c:483-491 | for X != F, VF is the bit shifted out and VX' + 256 * VF == 2 * VX |
| Properties.FlagDestinationQuirk | src/app.c:417-429 | with X = F, 8FY4 leaves (flag + VY) mod 256 in VF |
| Properties.FlagDestinationShift | src/app.c:453-491 | with X = F, 8F06 leaves 0 and 8F0E leaves twice the bit shifted out |
| Properties.FlagDestinationSubtract | src/app.c:432-482 | with X = F, 8FY5 leaves (flag - VY) mod 256 and 8FY7 leaves (VY - old VF) mod 256 |
| Properties.IndexValues | src/app.c:642-649 | FX07 copies the delay timer into VX, and ANNN (516-523) sets I to NNN; only that and PC change |
| Properties.TimerValues | src/app.c:677-694 | FX15 and FX18 set the delay and sound timers to VX; only that and PC change |
| Properties.FontCharIndex | src/app.c:712-722 | for every VX, FX29 sets I to 0x50 + 5 VX and changes nothing else but PC |
| Properties.FontCharGlyph | src/app.c:712-722 | with the font in place and VX < 16, FX29 points I at 0x50 + 5 VX, whose five bytes are that digit's glyph in `font_set` |
| Properties.InitialisedFont | src/app.c:112-115 | after `init` the font is in place at 0x50 |
| Properties.AddIndexFlag | src/app.c:695-711 | for every X, including F, FX1E sets VF to 1 iff I + VX > 0xFFF, with VX read before the write, and I wraps as a u16 |
| Properties.BcdDigits | src/app.c:723-741 | FX33 writes three digits below 10 with 100a + 10b + c == VX; I and all other bytes are unchanged |
| Properties.DecimalDigits | src/app.c:736-738 | the hundreds, tens and units digits FX33 computes are below 10 and spell the byte back |
| Properties.StoreRegsEffect | src/app.c:742-757 | FX55 stores V0 to VX at I to I + X; I and every other byte are unchanged |
| Properties.LoadRegsEffect | src/app.c:758-774 | FX65 loads V0 to VX from I to I + X; I, memory and the registers above X are unchanged |
| Properties.StoreThenLoad | src/app.c:742-774 | after FX55, whatever the registers are overwritten with, FX65 from the same I restores V0 to VX, keeps the higher registers as they now are, and keeps I |
| Properties.RandomMasked | src/app.c:531-538 | CXNN's result has no bit outside NN; only VX and PC change |
| Properties.WaitKeyHighest | src/app.c:650-676 | with a key down FX0A stores the highest pressed key and advances PC; with none down nothing changes |
| Properties.BlockedCycle | src/app.c:668-675 | a cycle blocks exactly on FX0A with all keys up, and then leaves timers and everything else unchanged |
| Properties.CycleTicksTimers | src/app.c:787-799 | on every other path each nonzero timer drops by exactly one, unless the instruction loaded it, and the beep reports the sound timer at 1 |
| Properties.ExecKeepsTimers | src/app.c:677-694 | only FX15 and FX18 write a timer |
| Properties.UnknownCycle | src/app.c:277-280 | an unknown word, one reaching the inner `default` branches at 277-280, 492-495, 632-635 or 775-778, leaves PC unchanged, ticks the timers and reports the unknown opcode |
| Properties.ClearScreenDarkens | src/app.c:256-265 | 00E0 darkens every cell and raises the draw flag |
| Properties.DrawEffect | src/app.c:570-594 | DXYN leaves VF = 1 iff a drawn bit met a lit cell, raises the draw flag, and keeps I, memory and V0 to VE |
| Properties.DrawTwice | src/app.c:570-594 | with X, Y != F, drawing the same sprite twice restores the frame buffer |
| Properties.ExecKeepsMonochrome | src/app.c:588 | every cell stays 0 or 0xFFFFFFFF across any instruction |
| Properties.ExecKeepsScreen | src/app.c:250-785 | only 00E0 and DXYN write the frame buffer |
| Properties.CycleKeepsMonochrome | src/app.c:245-800 | every cell stays 0 or 0xFFFFFFFF across any cycle |
| Properties.InitialScreenDark | src/app.c:806 | the zeroed and initialised machine has a dark screen |

## Left out

- SDL window, renderer and texture setup and teardown, texture upload and presentation: foreign library code.
- `handle_input`'s event polling and key mapping: host input. The keypad is part of the state and is only read.
- The `g__running` flag and `main`'s loop and ROM-name based delay: host configuration.
- `load_rom`'s `fopen`, `fseek`, `fread` and hex-dump `printf`: file I/O. The ROM is a byte sequence passed in, and a short `fread` is not modelled.
- `rand()` in CXNN: a foreign call. Its value is the parameter `rnd`.
- `printf` of "Unknown opcode" and "BEEP!": modelled as the fields of `Interpreter.Outcome`, not as output.
- Sprites.DrawUpTo: a set bit whose clamped destination falls outside the frame buffer is skipped. The C code would write past the end of `gfx`, which is undefined. `Interpreter.Allowed` excludes such draws, so the skip never happens in a defined cycle.
- Chip8.Emulator: the three byte arrays are assumed distinct objects, as the fields of one struct are. Aliasing between them is not modelled.
