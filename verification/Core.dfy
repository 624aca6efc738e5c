/** The interpreter of merry/merry_core.c on values: instruction decoding, and what one turn of the
    merry_runCore loop does to the registers, the program counter and the operand stack.
    The flags that compiled C leaves behind are an input of every step. */
module Core {
  import opened Bits
  import opened Wrappers
  import opened Words
  import opened InstructionMemory

  const REGISTERS: nat := 16          // REGR_COUNT
  const MA: nat := 0
  const MC: nat := 2
  const STACK_LIMIT: nat := 131072    // _MERRY_MEMORY_QS_PER_PAGE_
  const PAGE_WORDS: nat := 131072

  const DIV_BY_ZERO: nat := 53
  const STACK_OVERFLOW: nat := 54
  const STACK_UNDERFLOW: nat := 55

  datatype Flags = Flags(carry: bool, zero: bool, negative: bool, overflow: bool)

  /** `outside` marks that a step left what this model covers; nothing is claimed from then on. */
  datatype Cpu = Cpu(regs: seq<qword>, sp: qword, pc: qword, stack: seq<qword>, flags: Flags,
                     greater: bool, stop: bool, panics: seq<nat>, outside: bool)

  /** The stack memory has one slot more than its page, because the guard lets sp reach the limit. */
  predicate Sized(c: Cpu) {
    |c.regs| == REGISTERS && |c.stack| == STACK_LIMIT + 1
  }

  type State = c: Cpu | Sized(c)
    witness Cpu(seq(16, _ => 0), TWO64 - 1, 0, seq(131073, _ => 0), Flags(false, false, false, false),
                false, false, [], false)

  /** merry_core_init: registers zero, pc 0, and sp wrapped to the largest word. */
  function Init(stack: seq<qword>, flags: Flags, greater: bool): State
    requires |stack| == STACK_LIMIT + 1
  {
    Cpu(seq(REGISTERS, _ => 0), TWO64 - 1, 0, stack, flags, greater, false, [], false)
  }

  // Decoding

  type Reg = r: nat | r < 16

  datatype Alu = Add | Sub | Mul | Div | Mod
  datatype Bit = And | Or | Xor
  datatype Clear = ClearAll | ClearCarry | ClearZero | ClearNegative | ClearOverflow

  datatype Instr =
    | Nop
    | ArithImm(op: Alu, dst: Reg, imm: qword)
    | ArithReg(op: Alu, dst: Reg, src: Reg)
    | MoveImm(dst: Reg, imm: qword)
    | MoveReg(dst: Reg, src: Reg)
    | BitReg(bit: Bit, dst: Reg, src: Reg)
    | Not(dst: Reg)
    | Inc(dst: Reg)
    | Dec(dst: Reg)
    | Lea(dst: Reg, base: Reg, index: Reg, scale: Reg)
    | Exchange(dst: Reg, src: Reg)
    | CmpReg(dst: Reg, src: Reg)
    | ClearFlags(clear: Clear)
    | Reset
    | JmpOff(off: qword)
    | JmpAddr(target: qword)
    | PushImm(imm: qword)
    | PushReg(src: Reg)
    | PopReg(dst: Reg)
    | PushAll
    | PopAll
    | Loop(target: qword)
    | Other

  predicate StackOp(i: Instr) {
    i.PushImm? || i.PushReg? || i.PopReg? || i.PushAll? || i.PopAll?
  }

  function Opcode(w: qword): nat {
    w / 0x100_0000_0000_0000
  }

  /** (w >> 48) & 15, (w >> 52) & 15 and so on. */
  function Nibble(w: qword, low: nat): Reg
    requires 0 < low
  {
    w / low % 16
  }

  const BIT4: nat := 0x10
  const BIT8: nat := 0x100
  const BIT16: nat := 0x1_0000
  const BIT24: nat := 0x100_0000
  const BIT32: nat := 0x1_0000_0000
  const BIT48: nat := 0x1_0000_0000_0000
  const BIT52: nat := 0x10_0000_0000_0000

  /** A 48-bit operand whose top bit is a sign. */
  function SignExtend48(off: nat): qword
    requires off < BIT48
  {
    if off >= BIT48 / 2 then off + (TWO64 - BIT48) else off
  }

  function Decode(w: qword): Instr {
    var top, next := Nibble(w, BIT48), Nibble(w, BIT52);
    var up, down := Nibble(w, BIT4), Nibble(w, 1);
    var imm32, imm48 := w % BIT32, w % BIT48;
    match Opcode(w)
    case 0x00 => Nop
    case 0x02 => ArithImm(Add, top, imm32)
    case 0x03 => ArithReg(Add, up, down)
    case 0x04 => ArithImm(Sub, top, imm32)
    case 0x05 => ArithReg(Sub, up, down)
    case 0x06 => ArithImm(Mul, top, imm32)
    case 0x07 => ArithReg(Mul, up, down)
    case 0x08 => ArithImm(Div, top, imm32)
    case 0x09 => ArithReg(Div, up, down)
    case 0x0A => ArithImm(Mod, top, imm32)
    case 0x0B => ArithReg(Mod, next, top)
    case 0x1A => MoveImm(top, imm32)
    case 0x1C => MoveReg(up, down)
    case 0x26 => JmpOff(SignExtend48(imm48))
    case 0x27 => JmpAddr(imm48)
    case 0x2C => PushImm(imm48)
    case 0x2D => PushReg(down)
    case 0x2E => PopReg(down)
    case 0x2F => PushAll
    case 0x30 => PopAll
    case 0x32 => BitReg(And, up, down)
    case 0x34 => BitReg(Or, up, down)
    case 0x36 => BitReg(Xor, up, down)
    case 0x37 => Not(down)
    case 0x3B => CmpReg(up, down)
    case 0x3C => Inc(down)
    case 0x3D => Dec(down)
    case 0x3E => Lea(Nibble(w, BIT24), Nibble(w, BIT16), Nibble(w, BIT8), down)
    case 0x44 => Exchange(up, down)
    case 0x48 => ClearFlags(ClearAll)
    case 0x49 => Reset
    case 0x4A => ClearFlags(ClearZero)
    case 0x4B => ClearFlags(ClearNegative)
    case 0x4C => ClearFlags(ClearCarry)
    case 0x4D => ClearFlags(ClearOverflow)
    case 0x5E => Loop(imm48)
    case _ => Other
  }

  // Execution, with pc already advanced

  function SetReg(c: State, r: Reg, v: qword): State {
    c.(regs := c.regs[r := v])
  }

  function Fail(c: State, error: nat): State {
    c.(stop := true, panics := c.panics + [error])
  }

  /** Unsigned 64-bit arithmetic; the divisor of Div and Mod is not zero. */
  function Compute(op: Alu, a: qword, b: qword): qword
    requires (op.Div? || op.Mod?) ==> b != 0
  {
    match op
    case Add => Wrap(a as int + b as int)
    case Sub => Wrap(a as int - b as int)
    case Mul => Wrap(a as int * b as int)
    case Div => Quotient(a, b)
    case Mod => Remainder(a, b)
  }

  function Quotient(a: qword, b: qword): qword
    requires b != 0
  {
    a / b
  }

  function Remainder(a: qword, b: qword): qword
    requires b != 0
  {
    a % b
  }

  function Arith(c: State, op: Alu, dst: Reg, b: qword, flags: Flags): State {
    if (op.Div? || op.Mod?) && b == 0 then Fail(c, DIV_BY_ZERO)
    else SetReg(c, dst, Compute(op, c.regs[dst], b)).(flags := flags)
  }

  predicate Both(bit: Bit, x: bool, y: bool) {
    match bit
    case And => x && y
    case Or => x || y
    case Xor => x != y
  }

  function Bitwise(bit: Bit, a: qword, b: qword): qword {
    Pow64();
    FromBits(seq(64, k requires 0 <= k < 64 => Both(bit, BitAt(a, k), BitAt(b, k))))
  }

  function Cleared(flags: Flags, clear: Clear): Flags {
    match clear
    case ClearAll => Flags(false, false, false, false)
    case ClearCarry => flags.(carry := false)
    case ClearZero => flags.(zero := false)
    case ClearNegative => flags.(negative := false)
    case ClearOverflow => flags.(overflow := false)
  }

  /** The number of values on the operand stack: sp + 1, where sp is -1 for the empty stack. */
  function Depth(c: State): nat {
    Wrap(c.sp as int + 1)
  }

  function Push(c: State, v: qword): State {
    if c.sp == STACK_LIMIT then Fail(c, STACK_OVERFLOW)
    else if Depth(c) > STACK_LIMIT then c.(outside := true)
    else c.(sp := Depth(c), stack := c.stack[Depth(c) := v])
  }

  function Pop(c: State, dst: Reg): State {
    if c.sp == TWO64 - 1 then Fail(c, STACK_UNDERFLOW)
    else if c.sp > STACK_LIMIT then c.(outside := true)
    else SetReg(c, dst, c.stack[c.sp]).(sp := Wrap(c.sp as int - 1))
  }

  /** pusha: all registers in order, if the stack is empty or more than 16 slots are left. */
  function PushRegisters(c: State): State {
    var d := Depth(c);
    if c.sp != TWO64 - 1 && Wrap(STACK_LIMIT - c.sp as int) <= REGISTERS then Fail(c, STACK_OVERFLOW)
    else if d + REGISTERS > STACK_LIMIT + 1 then c.(outside := true)
    else c.(sp := d + REGISTERS - 1, stack := c.stack[..d] + c.regs + c.stack[d + REGISTERS..])
  }

  /** popa: registers 15 down to 1; the loop ends before register 0. The guard sp >= 15 also holds
      for the empty stack, whose reads lie outside the stack memory. */
  function PopRegisters(c: State): State {
    if c.sp < REGISTERS - 1 then Fail(c, STACK_UNDERFLOW)
    else if c.sp > STACK_LIMIT then c.(outside := true)
    else c.(regs := [c.regs[0]] + c.stack[c.sp - 14..c.sp + 1], sp := Wrap(c.sp as int - 15))
  }

  function Exec(c: State, i: Instr, flags: Flags): State {
    match i
    case Nop => c
    case ArithImm(op, dst, imm) => Arith(c, op, dst, imm, flags)
    case ArithReg(op, dst, src) => Arith(c, op, dst, c.regs[src], flags)
    case MoveImm(dst, imm) => SetReg(c, dst, imm)
    case MoveReg(dst, src) => SetReg(c, dst, c.regs[src])
    case BitReg(bit, dst, src) => SetReg(c, dst, Bitwise(bit, c.regs[dst], c.regs[src]))
    case Not(dst) => SetReg(c, dst, TWO64 - 1 - c.regs[dst])
    case Inc(dst) => SetReg(c, dst, Wrap(c.regs[dst] as int + 1))
    case Dec(dst) => SetReg(c, dst, Wrap(c.regs[dst] as int - 1))
    case Lea(dst, base, index, scale) =>
      SetReg(c, dst, Wrap(c.regs[base] as int + c.regs[index] as int * c.regs[scale] as int))
    case Exchange(dst, src) => c.(regs := c.regs[dst := c.regs[src]][src := c.regs[dst]])
    case CmpReg(dst, src) =>
      c.(flags := flags, greater := c.greater || c.regs[dst] > c.regs[src])
    case ClearFlags(clear) =>
      c.(flags := Cleared(c.flags, clear), greater := c.greater && !clear.ClearAll?)
    case Reset => c.(regs := seq(REGISTERS, _ => 0))
    case JmpOff(off) => c.(pc := Wrap(c.pc as int + off as int))
    case JmpAddr(target) => c.(pc := target)
    case PushImm(imm) => Push(c, imm)
    case PushReg(src) => Push(c, c.regs[src])
    case PopReg(dst) => Pop(c, dst)
    case PushAll => PushRegisters(c)
    case PopAll => PopRegisters(c)
    case Loop(target) =>
      if c.regs[MC] != 0 then SetReg(c, MC, c.regs[MC] - 1).(pc := target) else c
    case Other => c.(outside := true)
  }

  function Advanced(c: State): State {
    c.(pc := Wrap(c.pc as int + 1))
  }

  /** One turn of the interpreter loop. A failed fetch panics and leaves the loop; `stop` stands for
      both ways out of it. */
  function Step(c: State, words: seq<qword>, flags: Flags): State {
    if c.stop || c.outside then c
    else
      match Fetch(words, PAGE_WORDS, c.pc)
      case None => Fail(c, MEM_INVALID_ACCESS)
      case Some(w) => Exec(Advanced(c), Decode(w), flags)
  }

  /** The instruction that is due at pc. */
  function Fetched(words: seq<qword>, pc: qword): Instr
    requires Fetch(words, PAGE_WORDS, pc).Some?
  {
    Decode(Fetch(words, PAGE_WORDS, pc).value)
  }

  lemma StepExecutes(c: State, words: seq<qword>, flags: Flags)
    requires !c.stop && !c.outside && Fetch(words, PAGE_WORDS, c.pc).Some?
    ensures Step(c, words, flags) == Exec(Advanced(c), Fetched(words, c.pc), flags)
  {
  }

  /** A run of as many steps as there are flag outcomes. */
  function Run(c: State, words: seq<qword>, outcomes: seq<Flags>): State
    decreases |outcomes|
  {
    if outcomes == [] then c
    else Step(Run(c, words, outcomes[..|outcomes| - 1]), words, outcomes[|outcomes| - 1])
  }

  // What instructions undo

  lemma WrapSum(a: qword, b: qword)
    ensures Wrap(a as int + b as int) == if a + b < TWO64 then a + b else a + b - TWO64
  {
  }

  lemma WrapDifference(a: qword, b: qword)
    ensures Wrap(a as int - b as int) == if b <= a then a - b else a - b + TWO64
  {
  }

  lemma WrapUndone(a: qword, b: qword)
    ensures Wrap(Wrap(a as int + b as int) as int - b as int) == a
    ensures Wrap(Wrap(a as int - b as int) as int + b as int) == a
  {
    WrapSum(a, b);
    WrapDifference(Wrap(a as int + b as int), b);
    WrapDifference(a, b);
    WrapSum(Wrap(a as int - b as int), b);
  }

  /** Adding and subtracting the same value gives the registers back whatever wraps. */
  lemma ArithUndone(c: State, dst: Reg, b: qword, f1: Flags, f2: Flags)
    ensures Arith(Arith(c, Add, dst, b, f1), Sub, dst, b, f2).regs == c.regs
    ensures Arith(Arith(c, Sub, dst, b, f1), Add, dst, b, f2).regs == c.regs
  {
    WrapUndone(c.regs[dst], b);
  }

  lemma SumUndone(c: State, dst: Reg, imm: qword, f1: Flags, f2: Flags)
    ensures Exec(Exec(c, ArithImm(Add, dst, imm), f1), ArithImm(Sub, dst, imm), f2).regs == c.regs
    ensures Exec(Exec(c, ArithImm(Sub, dst, imm), f1), ArithImm(Add, dst, imm), f2).regs == c.regs
  {
    ArithUndone(c, dst, imm, f1, f2);
  }

  /** A register operand other than the destination keeps its value in between. */
  lemma ArithKeeps(c: State, op: Alu, dst: Reg, src: Reg, f: Flags)
    requires dst != src && (op.Add? || op.Sub?)
    ensures Exec(c, ArithReg(op, dst, src), f) == Arith(c, op, dst, c.regs[src], f)
    ensures Exec(c, ArithReg(op, dst, src), f).regs[src] == c.regs[src]
  {
  }

  lemma DifferenceUndone(c: State, dst: Reg, src: Reg, f1: Flags, f2: Flags)
    requires dst != src
    ensures Exec(Exec(c, ArithReg(Sub, dst, src), f1), ArithReg(Add, dst, src), f2).regs == c.regs
    ensures Exec(Exec(c, ArithReg(Add, dst, src), f1), ArithReg(Sub, dst, src), f2).regs == c.regs
  {
    ArithUndone(c, dst, c.regs[src], f1, f2);
    ArithKeeps(c, Sub, dst, src, f1);
    ArithKeeps(c, Add, dst, src, f1);
    ArithKeeps(Exec(c, ArithReg(Sub, dst, src), f1), Add, dst, src, f2);
    ArithKeeps(Exec(c, ArithReg(Add, dst, src), f1), Sub, dst, src, f2);
  }

  lemma IncUndone(c: State, dst: Reg, f1: Flags, f2: Flags)
    ensures Exec(Exec(c, Inc(dst), f1), Dec(dst), f2).regs == c.regs
    ensures Exec(Exec(c, Dec(dst), f1), Inc(dst), f2).regs == c.regs
  {
    WrapUndone(c.regs[dst], 1);
  }

  /** So do two equal exchanges and two complements. */
  lemma ExchangeUndone(c: State, dst: Reg, src: Reg, f1: Flags, f2: Flags)
    ensures Exec(Exec(c, Exchange(dst, src), f1), Exchange(dst, src), f2).regs == c.regs
    ensures Exec(Exec(c, Not(dst), f1), Not(dst), f2).regs == c.regs
  {
  }

  /** Quotient and remainder by the same divisor recombine to the dividend, and a zero divisor stops the
      core with the registers as they were. */
  lemma QuotientAndRemainder(c: State, dst: Reg, b: qword, flags: Flags)
    ensures var q, r := Arith(c, Div, dst, b, flags), Arith(c, Mod, dst, b, flags);
            if b == 0 then q == Fail(c, DIV_BY_ZERO) && r == q
            else q.regs[dst] * b + r.regs[dst] == c.regs[dst] && r.regs[dst] < b
  {
  }
}
