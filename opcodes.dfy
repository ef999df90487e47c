/** Instruction words: fetching them from memory, the operand fields, and the
    two-level dispatch of `emulation_cycle` written as a decode into a tagged
    instruction type. */
module Opcodes {
  import opened Types

  /** The 16-bit instruction word at `pc`: `memory[pc] << 8 | memory[pc + 1]`.
      Big-endian: the byte at `pc` is the high byte. */
  function Fetch(memory: seq<u8>, pc: int): (op: u16)
    requires 0 <= pc && pc + 1 < |memory|
    ensures op / 0x100 == memory[pc] && op % 0x100 == memory[pc + 1]
  {
    (memory[pc] as int) * 0x100 + memory[pc + 1]
  }

  /** The instruction family, `opcode & 0xF000`, as a nibble. */
  function Family(op: u16): Nibble { op / 0x1000 }

  /** The `VX` macro: `(opcode & 0x0F00) >> 8`. */
  function X(op: u16): Nibble { (op / 0x100) % 0x10 }

  /** The `VY` macro: `(opcode & 0x00F0) >> 4`. */
  function Y(op: u16): Nibble { (op / 0x10) % 0x10 }

  /** `opcode & 0x000F`. */
  function N(op: u16): Nibble { op % 0x10 }

  /** `opcode & 0x00FF`. */
  function NN(op: u16): u8 { op % 0x100 }

  /** `opcode & 0x0FFF`. */
  function NNN(op: u16): Addr { op % 0x1000 }

  /** One instruction per case of the dispatch, carrying the operand fields its
      case reads. `Unknown` is every word that falls into a `default` branch. */
  datatype Instr =
    | ClearScreen                         // 00E0
    | Return                              // 00EE
    | Jump(nnn: Addr)                     // 1NNN
    | Call(nnn: Addr)                     // 2NNN
    | SkipIfEqualImm(x: Nibble, nn: u8)   // 3XNN
    | SkipIfNotEqualImm(x: Nibble, nn: u8) // 4XNN
    | SkipIfEqualReg(x: Nibble, y: Nibble) // 5XY0 (low nibble not inspected)
    | LoadImm(x: Nibble, nn: u8)          // 6XNN
    | AddImm(x: Nibble, nn: u8)           // 7XNN
    | Move(x: Nibble, y: Nibble)          // 8XY0
    | Or(x: Nibble, y: Nibble)            // 8XY1
    | And(x: Nibble, y: Nibble)           // 8XY2
    | Xor(x: Nibble, y: Nibble)           // 8XY3
    | AddReg(x: Nibble, y: Nibble)        // 8XY4
    | SubReg(x: Nibble, y: Nibble)        // 8XY5
    | ShiftRight(x: Nibble)               // 8XY6 (Y not used)
    | SubRev(x: Nibble, y: Nibble)        // 8XY7
    | ShiftLeft(x: Nibble)                // 8XYE (Y not used)
    | SkipIfNotEqualReg(x: Nibble, y: Nibble) // 9XY0 (low nibble not inspected)
    | LoadIndex(nnn: Addr)                // ANNN
    | JumpOffset(nnn: Addr)               // BNNN
    | Random(x: Nibble, nn: u8)           // CXNN
    | Draw(x: Nibble, y: Nibble, n: Nibble) // DXYN
    | SkipIfKey(x: Nibble)                // EX9E
    | SkipIfNotKey(x: Nibble)             // EXA1
    | ReadDelay(x: Nibble)                // FX07
    | WaitKey(x: Nibble)                  // FX0A
    | SetDelay(x: Nibble)                 // FX15
    | SetSound(x: Nibble)                 // FX18
    | AddIndex(x: Nibble)                 // FX1E
    | FontChar(x: Nibble)                 // FX29
    | StoreBcd(x: Nibble)                 // FX33
    | StoreRegs(x: Nibble)                // FX55
    | LoadRegs(x: Nibble)                 // FX65
    | Unknown(op: u16)

  /** The dispatch: first on the top nibble, then on the low byte (families 0,
      E and F) or the low nibble (family 8). Families 0, 5 and 9 ignore the
      bits their second level does not look at, so 0x01E0 clears the screen
      and 0x5121 is a skip-if-equal. */
  function Decode(op: u16): (ins: Instr)
    ensures ins.Unknown? ==> ins.op == op
  {
    Dispatch(op, Family(op), X(op), Y(op), N(op))
  }

  /** The dispatch on the four nibbles `f`, `x`, `y`, `n` of the word `op`. */
  function Dispatch(op: u16, f: Nibble, x: Nibble, y: Nibble, n: Nibble): (ins: Instr)
    ensures ins.Unknown? ==> ins.op == op
  {
    var nn: u8 := y * 0x10 + n;
    var nnn: Addr := x * 0x100 + nn;
    match f
    case 0x0 =>
      if nn == 0xE0 then ClearScreen
      else if nn == 0xEE then Return
      else Unknown(op)
    case 0x1 => Jump(nnn)
    case 0x2 => Call(nnn)
    case 0x3 => SkipIfEqualImm(x, nn)
    case 0x4 => SkipIfNotEqualImm(x, nn)
    case 0x5 => SkipIfEqualReg(x, y)
    case 0x6 => LoadImm(x, nn)
    case 0x7 => AddImm(x, nn)
    case 0x8 =>
      if n == 0x0 then Move(x, y)
      else if n == 0x1 then Or(x, y)
      else if n == 0x2 then And(x, y)
      else if n == 0x3 then Xor(x, y)
      else if n == 0x4 then AddReg(x, y)
      else if n == 0x5 then SubReg(x, y)
      else if n == 0x6 then ShiftRight(x)
      else if n == 0x7 then SubRev(x, y)
      else if n == 0xE then ShiftLeft(x)
      else Unknown(op)
    case 0x9 => SkipIfNotEqualReg(x, y)
    case 0xA => LoadIndex(nnn)
    case 0xB => JumpOffset(nnn)
    case 0xC => Random(x, nn)
    case 0xD => Draw(x, y, n)
    case 0xE =>
      if nn == 0x9E then SkipIfKey(x)
      else if nn == 0xA1 then SkipIfNotKey(x)
      else Unknown(op)
    case 0xF =>
      if nn == 0x07 then ReadDelay(x)
      else if nn == 0x0A then WaitKey(x)
      else if nn == 0x15 then SetDelay(x)
      else if nn == 0x18 then SetSound(x)
      else if nn == 0x1E then AddIndex(x)
      else if nn == 0x29 then FontChar(x)
      else if nn == 0x33 then StoreBcd(x)
      else if nn == 0x55 then StoreRegs(x)
      else if nn == 0x65 then LoadRegs(x)
      else Unknown(op)
  }

  /** The nibbles of the canonical word of a known instruction: the bits the
      decoder does not inspect are zero. */
  function Nibbles(ins: Instr): (Nibble, Nibble, Nibble, Nibble)
    requires !ins.Unknown?
  {
    match ins
    case ClearScreen => (0, 0, 0xE, 0)
    case Return => (0, 0, 0xE, 0xE)
    case Jump(a) => (1, a / 0x100, (a / 0x10) % 0x10, a % 0x10)
    case Call(a) => (2, a / 0x100, (a / 0x10) % 0x10, a % 0x10)
    case SkipIfEqualImm(x, nn) => (3, x, nn / 0x10, nn % 0x10)
    case SkipIfNotEqualImm(x, nn) => (4, x, nn / 0x10, nn % 0x10)
    case SkipIfEqualReg(x, y) => (5, x, y, 0)
    case LoadImm(x, nn) => (6, x, nn / 0x10, nn % 0x10)
    case AddImm(x, nn) => (7, x, nn / 0x10, nn % 0x10)
    case Move(x, y) => (8, x, y, 0)
    case Or(x, y) => (8, x, y, 1)
    case And(x, y) => (8, x, y, 2)
    case Xor(x, y) => (8, x, y, 3)
    case AddReg(x, y) => (8, x, y, 4)
    case SubReg(x, y) => (8, x, y, 5)
    case ShiftRight(x) => (8, x, 0, 6)
    case SubRev(x, y) => (8, x, y, 7)
    case ShiftLeft(x) => (8, x, 0, 0xE)
    case SkipIfNotEqualReg(x, y) => (9, x, y, 0)
    case LoadIndex(a) => (0xA, a / 0x100, (a / 0x10) % 0x10, a % 0x10)
    case JumpOffset(a) => (0xB, a / 0x100, (a / 0x10) % 0x10, a % 0x10)
    case Random(x, nn) => (0xC, x, nn / 0x10, nn % 0x10)
    case Draw(x, y, n) => (0xD, x, y, n)
    case SkipIfKey(x) => (0xE, x, 9, 0xE)
    case SkipIfNotKey(x) => (0xE, x, 0xA, 1)
    case ReadDelay(x) => (0xF, x, 0, 7)
    case WaitKey(x) => (0xF, x, 0, 0xA)
    case SetDelay(x) => (0xF, x, 1, 5)
    case SetSound(x) => (0xF, x, 1, 8)
    case AddIndex(x) => (0xF, x, 1, 0xE)
    case FontChar(x) => (0xF, x, 2, 9)
    case StoreBcd(x) => (0xF, x, 3, 3)
    case StoreRegs(x) => (0xF, x, 5, 5)
    case LoadRegs(x) => (0xF, x, 6, 5)
  }

  /** The word with nibbles `f`, `x`, `y`, `n` from high to low. */
  function Word(f: Nibble, x: Nibble, y: Nibble, n: Nibble): u16 {
    f * 0x1000 + x * 0x100 + y * 0x10 + n
  }

  /** The canonical instruction word of an instruction; an unknown one keeps
      its own word. */
  function Encode(ins: Instr): u16 {
    if ins.Unknown? then ins.op
    else
      var (f, x, y, n) := Nibbles(ins);
      Word(f, x, y, n)
  }

  /** The field macros read back the nibbles a word was built from. */
  lemma Fields(f: Nibble, x: Nibble, y: Nibble, n: Nibble)
    ensures var op := Word(f, x, y, n);
      && Family(op) == f && X(op) == x && Y(op) == y && N(op) == n
      && NN(op) == y * 0x10 + n && NNN(op) == x * 0x100 + y * 0x10 + n
  {
    var op := Word(f, x, y, n);
    assert op == (f * 0x10 + x) * 0x100 + (y * 0x10 + n);
    assert op / 0x100 == f * 0x10 + x;
    assert op % 0x100 == y * 0x10 + n;
    assert op == (f * 0x100 + x * 0x10 + y) * 0x10 + n;
    assert op / 0x10 == f * 0x100 + x * 0x10 + y;
    assert op == f * 0x1000 + (x * 0x100 + y * 0x10 + n);
  }

  /** Every word is the word of its own fields. */
  lemma Split(op: u16)
    ensures op == Word(Family(op), X(op), Y(op), N(op))
    ensures NN(op) == Y(op) * 0x10 + N(op)
  {
    var hi, lo := op / 0x100, op % 0x100;
    assert op == hi * 0x100 + lo;
    assert hi == (hi / 0x10) * 0x10 + hi % 0x10;
    assert lo == (lo / 0x10) * 0x10 + lo % 0x10;
    assert hi / 0x10 == Family(op);
    assert lo / 0x10 == Y(op);
  }

  /** Decoding the canonical word of any known instruction gives it back. */
  lemma DecodeEncode(ins: Instr)
    requires !ins.Unknown?
    ensures Decode(Encode(ins)) == ins
  {
    var (f, x, y, n) := Nibbles(ins);
    Fields(f, x, y, n);
    assert Decode(Encode(ins)) == Dispatch(Word(f, x, y, n), f, x, y, n);
    DispatchNibbles(ins);
  }

  /** The dispatch maps the nibbles of every known instruction back to it. */
  lemma DispatchNibbles(ins: Instr)
    requires !ins.Unknown?
    ensures var (f, x, y, n) := Nibbles(ins); Dispatch(Word(f, x, y, n), f, x, y, n) == ins
  {
    match ins
    case ClearScreen | Return | Jump(_) | Call(_) | SkipIfEqualImm(_, _) | SkipIfNotEqualImm(_, _)
      | SkipIfEqualReg(_, _) | LoadImm(_, _) | AddImm(_, _) =>
      DispatchLow(ins);
    case Move(_, _) | Or(_, _) | And(_, _) | Xor(_, _) | AddReg(_, _) | SubReg(_, _) | ShiftRight(_)
      | SubRev(_, _) | ShiftLeft(_) =>
      DispatchArithmetic(ins);
    case SkipIfNotEqualReg(_, _) | LoadIndex(_) | JumpOffset(_) | Random(_, _) | Draw(_, _, _)
      | SkipIfKey(_) | SkipIfNotKey(_) =>
      DispatchHigh(ins);
    case ReadDelay(_) | WaitKey(_) | SetDelay(_) | SetSound(_) | AddIndex(_) | FontChar(_)
      | StoreBcd(_) | StoreRegs(_) | LoadRegs(_) =>
      DispatchMisc(ins);
  }

  /** An address is the word of its three nibbles. */
  lemma SplitAddr(a: Addr)
    ensures a == (a / 0x100) * 0x100 + ((a / 0x10) % 0x10) * 0x10 + a % 0x10
  {
  }

  /** A byte is the word of its two nibbles. */
  lemma SplitByte(b: u8)
    ensures b == (b / 0x10) * 0x10 + b % 0x10
  {
  }

  lemma DispatchLow(ins: Instr)
    requires || ins.ClearScreen? || ins.Return? || ins.Jump? || ins.Call? || ins.SkipIfEqualImm?
             || ins.SkipIfNotEqualImm? || ins.SkipIfEqualReg? || ins.LoadImm? || ins.AddImm?
    ensures var (f, x, y, n) := Nibbles(ins); Dispatch(Word(f, x, y, n), f, x, y, n) == ins
  {
    match ins
    case Jump(a) => SplitAddr(a);
    case Call(a) => SplitAddr(a);
    case SkipIfEqualImm(_, nn) => SplitByte(nn);
    case SkipIfNotEqualImm(_, nn) => SplitByte(nn);
    case LoadImm(_, nn) => SplitByte(nn);
    case AddImm(_, nn) => SplitByte(nn);
    case _ =>
  }

  lemma DispatchArithmetic(ins: Instr)
    requires || ins.Move? || ins.Or? || ins.And? || ins.Xor? || ins.AddReg? || ins.SubReg?
             || ins.ShiftRight? || ins.SubRev? || ins.ShiftLeft?
    ensures var (f, x, y, n) := Nibbles(ins); Dispatch(Word(f, x, y, n), f, x, y, n) == ins
  {
  }

  lemma DispatchHigh(ins: Instr)
    requires || ins.SkipIfNotEqualReg? || ins.LoadIndex? || ins.JumpOffset? || ins.Random? || ins.Draw?
             || ins.SkipIfKey? || ins.SkipIfNotKey?
    ensures var (f, x, y, n) := Nibbles(ins); Dispatch(Word(f, x, y, n), f, x, y, n) == ins
  {
    match ins
    case LoadIndex(a) => SplitAddr(a);
    case JumpOffset(a) => SplitAddr(a);
    case Random(_, nn) => SplitByte(nn);
    case _ =>
  }

  lemma DispatchMisc(ins: Instr)
    requires || ins.ReadDelay? || ins.WaitKey? || ins.SetDelay? || ins.SetSound? || ins.AddIndex?
             || ins.FontChar? || ins.StoreBcd? || ins.StoreRegs? || ins.LoadRegs?
    ensures var (f, x, y, n) := Nibbles(ins); Dispatch(Word(f, x, y, n), f, x, y, n) == ins
  {
  }

  /** A word is undecodable exactly when its second-level field matches no case. */
  lemma UnknownWords(op: u16)
    ensures Decode(op).Unknown? <==>
      || (Family(op) == 0 && NN(op) !in {0xE0, 0xEE})
      || (Family(op) == 8 && N(op) !in {0, 1, 2, 3, 4, 5, 6, 7, 0xE})
      || (Family(op) == 0xE && NN(op) !in {0x9E, 0xA1})
      || (Family(op) == 0xF && NN(op) !in {0x07, 0x0A, 0x15, 0x18, 0x1E, 0x29, 0x33, 0x55, 0x65})
  {
    Split(op);
    DispatchUnknown(op, Family(op), X(op), Y(op), N(op));
  }

  lemma DispatchUnknown(op: u16, f: Nibble, x: Nibble, y: Nibble, n: Nibble)
    ensures Dispatch(op, f, x, y, n).Unknown? <==>
      || (f == 0 && y * 0x10 + n !in {0xE0, 0xEE})
      || (f == 8 && n !in {0, 1, 2, 3, 4, 5, 6, 7, 0xE})
      || (f == 0xE && y * 0x10 + n !in {0x9E, 0xA1})
      || (f == 0xF && y * 0x10 + n !in {0x07, 0x0A, 0x15, 0x18, 0x1E, 0x29, 0x33, 0x55, 0x65})
  {
  }
}
