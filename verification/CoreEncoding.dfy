/** Where an instruction word holds its opcode and operands (merry/core/merry_core.h:149-153): words put
    together field by field, which the decoding of module Core takes apart again. */
module CoreEncoding {
  import opened Wrappers
  import opened Words
  import Arith
  import opened Paging
  import opened InstructionMemory
  import opened Core
  import opened CoreLoop

  function ImmCode(op: Alu): nat {
    match op case Add => 0x02 case Sub => 0x04 case Mul => 0x06 case Div => 0x08 case Mod => 0x0A
  }

  /** Opcode byte, two register nibbles, 16 unused bits, and a 32-bit immediate. */
  function TopWord(code: nat, next: Reg, top: Reg, imm: nat): qword
    requires code < 0x100 && imm < BIT32
  {
    code * 0x100_0000_0000_0000 + next * BIT52 + top * BIT48 + imm
  }

  /** Opcode byte and a 48-bit operand. */
  function WideWord(code: nat, imm: nat): qword
    requires code < 0x100 && imm < BIT48
  {
    code * 0x100_0000_0000_0000 + imm
  }

  /** Opcode byte and two register nibbles at the low end. */
  function LowWord(code: nat, up: Reg, down: Reg): qword
    requires code < 0x100
  {
    WideWord(code, up * BIT4 + down)
  }

  function ClearCode(clear: Clear): nat {
    match clear
    case ClearAll => 0x48 case ClearZero => 0x4A case ClearNegative => 0x4B
    case ClearCarry => 0x4C case ClearOverflow => 0x4D
  }

  /** The operands fit their fields; a jump offset is a signed 48-bit number. */
  predicate Encodable(i: Instr) {
    match i
    case ArithImm(_, _, imm) => imm < BIT32
    case MoveImm(_, imm) => imm < BIT32
    case JmpOff(off) => off < BIT48 / 2 || TWO64 - BIT48 / 2 <= off
    case JmpAddr(target) => target < BIT48
    case PushImm(imm) => imm < BIT48
    case Loop(target) => target < BIT48
    case Other => false
    case _ => true
  }

  /** The number of the opcode. */
  function CodeOf(i: Instr): nat {
    match i
    case Nop => 0x00
    case ArithImm(op, _, _) => ImmCode(op)
    case ArithReg(op, _, _) => ImmCode(op) + 1
    case MoveImm(_, _) => 0x1A
    case MoveReg(_, _) => 0x1C
    case JmpOff(_) => 0x26
    case JmpAddr(_) => 0x27
    case PushImm(_) => 0x2C
    case PushReg(_) => 0x2D
    case PopReg(_) => 0x2E
    case PushAll => 0x2F
    case PopAll => 0x30
    case BitReg(bit, _, _) => if bit.And? then 0x32 else if bit.Or? then 0x34 else 0x36
    case Not(_) => 0x37
    case CmpReg(_, _) => 0x3B
    case Inc(_) => 0x3C
    case Dec(_) => 0x3D
    case Lea(_, _, _, _) => 0x3E
    case Exchange(_, _) => 0x44
    case ClearFlags(clear) => ClearCode(clear)
    case Reset => 0x49
    case Loop(_) => 0x5E
    case Other => 0xFF
  }

  function Encode(i: Instr): qword
    requires Encodable(i)
  {
    match i
    case ArithImm(_, dst, imm) => TopWord(CodeOf(i), 0, dst, imm)
    case ArithReg(op, dst, src) =>
      if op.Mod? then TopWord(CodeOf(i), dst, src, 0) else LowWord(CodeOf(i), dst, src)
    case MoveImm(dst, imm) => TopWord(CodeOf(i), 0, dst, imm)
    case MoveReg(dst, src) => LowWord(CodeOf(i), dst, src)
    case JmpOff(off) => WideWord(CodeOf(i), off % BIT48)
    case JmpAddr(target) => WideWord(CodeOf(i), target)
    case PushImm(imm) => WideWord(CodeOf(i), imm)
    case PushReg(src) => LowWord(CodeOf(i), 0, src)
    case PopReg(dst) => LowWord(CodeOf(i), 0, dst)
    case BitReg(_, dst, src) => LowWord(CodeOf(i), dst, src)
    case Not(dst) => LowWord(CodeOf(i), 0, dst)
    case CmpReg(dst, src) => LowWord(CodeOf(i), dst, src)
    case Inc(dst) => LowWord(CodeOf(i), 0, dst)
    case Dec(dst) => LowWord(CodeOf(i), 0, dst)
    case Lea(dst, base, index, scale) =>
      WideWord(CodeOf(i), dst * BIT24 + base * BIT16 + index * BIT8 + scale)
    case Exchange(dst, src) => LowWord(CodeOf(i), dst, src)
    case Loop(target) => WideWord(CodeOf(i), target)
    case _ => WideWord(CodeOf(i), 0)
  }

  /** A field that stands `low` up in a word, with `hi` above it and `rest` below. */
  lemma FieldAt(w: qword, low: nat, hi: nat, field: Reg, rest: nat)
    requires rest < low && w == (hi * 16 + field) * low + rest
    ensures Nibble(w, low) == field
  {
    Arith.Remainder(w, low, hi * 16 + field, rest);
    Arith.Remainder(hi * 16 + field, 16, hi, field);
  }

  lemma TopFields(code: nat, next: Reg, top: Reg, imm: nat)
    requires code < 0x100 && imm < BIT32
    ensures var w := TopWord(code, next, top, imm);
            Opcode(w) == code && Nibble(w, BIT52) == next && Nibble(w, BIT48) == top && w % BIT32 == imm
  {
    var w := TopWord(code, next, top, imm);
    Arith.Remainder(w, 0x100_0000_0000_0000, code, next * BIT52 + top * BIT48 + imm);
    FieldAt(w, BIT52, code, next, top * BIT48 + imm);
    FieldAt(w, BIT48, code * 16 + next, top, imm);
    Arith.Remainder(w, BIT32, code * 0x100_0000 + next * 0x10_0000 + top * 0x1_0000, imm);
  }

  lemma WideFields(code: nat, imm: nat)
    requires code < 0x100 && imm < BIT48
    ensures var w := WideWord(code, imm);
            Opcode(w) == code && w % BIT48 == imm
  {
    var w := WideWord(code, imm);
    Arith.Remainder(w, 0x100_0000_0000_0000, code, imm);
    Arith.Remainder(w, BIT48, code * 0x100, imm);
  }

  lemma LowFields(code: nat, up: Reg, down: Reg)
    requires code < 0x100
    ensures var w := LowWord(code, up, down);
            Opcode(w) == code && Nibble(w, BIT4) == up && Nibble(w, 1) == down
  {
    var w := LowWord(code, up, down);
    WideFields(code, up * BIT4 + down);
    FieldAt(w, BIT4, code * 0x1_0000_0000_0000, up, down);
    FieldAt(w, 1, code * 0x10_0000_0000_0000 + up, down, 0);
  }

  lemma LeaFields(dst: Reg, base: Reg, index: Reg, scale: Reg)
    ensures var w := WideWord(0x3E, dst * BIT24 + base * BIT16 + index * BIT8 + scale);
            && Opcode(w) == 0x3E && Nibble(w, BIT24) == dst && Nibble(w, BIT16) == base
            && Nibble(w, BIT8) == index && Nibble(w, 1) == scale
  {
    var w := WideWord(0x3E, dst * BIT24 + base * BIT16 + index * BIT8 + scale);
    WideFields(0x3E, dst * BIT24 + base * BIT16 + index * BIT8 + scale);
    FieldAt(w, BIT24, 0x3E * 0x1000_0000, dst, base * BIT16 + index * BIT8 + scale);
    FieldAt(w, BIT16, 0x3E * 0x10_0000_0000 + dst * 16, base, index * BIT8 + scale);
    FieldAt(w, BIT8, 0x3E * 0x1000_0000_0000 + dst * 0x1000 + base * 16, index, scale);
    FieldAt(w, 1, 0x3E * 0x10_0000_0000_0000 + dst * 0x10_0000 + base * 0x1000 + index * 16, scale, 0);
  }

  /** The instructions with register operands at the low end. */
  predicate IsLow(i: Instr) {
    || (i.ArithReg? && !i.op.Mod?) || i.MoveReg? || i.PushReg? || i.PopReg? || i.BitReg? || i.Not?
    || i.CmpReg? || i.Inc? || i.Dec? || i.Exchange?
  }

  /** Destination and source of these, 0 for the one that is not there. */
  function Upper(i: Instr): Reg {
    match i
    case ArithReg(_, dst, _) => dst
    case MoveReg(dst, _) => dst
    case BitReg(_, dst, _) => dst
    case CmpReg(dst, _) => dst
    case Exchange(dst, _) => dst
    case _ => 0
  }

  function Lower(i: Instr): Reg {
    match i
    case ArithReg(_, _, src) => src
    case MoveReg(_, src) => src
    case BitReg(_, _, src) => src
    case CmpReg(_, src) => src
    case Exchange(_, src) => src
    case PushReg(src) => src
    case PopReg(dst) => dst
    case Not(dst) => dst
    case Inc(dst) => dst
    case Dec(dst) => dst
    case _ => 0
  }

  lemma DecodeLow(i: Instr)
    requires IsLow(i)
    ensures Decode(Encode(i)) == i && Opcode(Encode(i)) == CodeOf(i)
  {
    LowFields(CodeOf(i), Upper(i), Lower(i));
    assert Encode(i) == LowWord(CodeOf(i), Upper(i), Lower(i));
  }

  /** Every modelled instruction whose operands fit is decoded from its word, no field overlapping
      another; so no two of them share a word. */
  lemma DecodeEncode(i: Instr)
    requires Encodable(i)
    ensures Decode(Encode(i)) == i && Opcode(Encode(i)) == CodeOf(i)
  {
    if IsLow(i) {
      DecodeLow(i);
    } else {
      match i
      case ArithImm(_, dst, imm) => TopFields(CodeOf(i), 0, dst, imm);
      case ArithReg(_, dst, src) => TopFields(CodeOf(i), dst, src, 0);
      case MoveImm(dst, imm) => TopFields(CodeOf(i), 0, dst, imm);
      case JmpOff(off) => WideFields(CodeOf(i), off % BIT48);
      case JmpAddr(target) => WideFields(CodeOf(i), target);
      case PushImm(imm) => WideFields(CodeOf(i), imm);
      case Lea(dst, base, index, scale) => LeaFields(dst, base, index, scale);
      case Loop(target) => WideFields(CodeOf(i), target);
      case Nop => WideFields(CodeOf(i), 0);
      case PushAll => WideFields(CodeOf(i), 0);
      case PopAll => WideFields(CodeOf(i), 0);
      case ClearFlags(_) => WideFields(CodeOf(i), 0);
      case Reset => WideFields(CodeOf(i), 0);
    }
  }

  /** The opcodes in the order of merry/core/merry_opcodes.h:40-198, up to LOOP; an opcode is its place there. */
  const OPCODES: seq<string> := OPCODES_00 + OPCODES_20 + OPCODES_40

  const OPCODES_00: seq<string> :=
    ["NOP", "HALT", "ADD_IMM", "ADD_REG", "SUB_IMM", "SUB_REG", "MUL_IMM", "MUL_REG", "DIV_IMM", "DIV_REG",
     "MOD_IMM", "MOD_REG", "IADD_IMM", "IADD_REG", "ISUB_IMM", "ISUB_REG", "IMUL_IMM", "IMUL_REG", "IDIV_IMM",
     "IDIV_REG", "IMOD_IMM", "IMOD_REG", "FADD", "FSUB", "FMUL", "FDIV", "MOVE_IMM", "MOVE_IMM_64", "MOVE_REG",
     "MOVE_REG8", "MOVE_REG16", "MOVE_REG32"]

  const OPCODES_20: seq<string> :=
    ["MOVESX_IMM8", "MOVESX_IMM16", "MOVESX_IMM32", "MOVESX_REG8", "MOVESX_REG16", "MOVESX_REG32", "JMP_OFF",
     "JMP_ADDR", "CALL", "RET", "SVA", "SVC", "PUSH_IMM", "PUSH_REG", "POP", "PUSHA", "POPA", "AND_IMM", "AND_REG",
     "OR_IMM", "OR_REG", "XOR_IMM", "XOR_REG", "NOT", "LSHIFT", "RSHIFT", "CMP_IMM", "CMP_REG", "INC", "DEC", "LEA",
     "LOAD"]

  const OPCODES_40: seq<string> :=
    ["STORE", "EXCG8", "EXCG16", "EXCG32", "EXCG", "MOV8", "MOV16", "MOV32", "CFLAGS", "RESET", "CLZ", "CLN", "CLC",
     "CLO", "JNZ", "JZ", "JNE", "JE", "JNC", "JC", "JNO", "JO", "JNN", "JN", "JNG", "JG", "JNS", "JS", "JGE", "JSE",
     "LOOP"]

  function Mnemonic(i: Instr): string {
    match i
    case Nop => "NOP"
    case ArithImm(op, _, _) =>
      (match op case Add => "ADD_IMM" case Sub => "SUB_IMM" case Mul => "MUL_IMM" case Div => "DIV_IMM"
                case Mod => "MOD_IMM")
    case ArithReg(op, _, _) =>
      (match op case Add => "ADD_REG" case Sub => "SUB_REG" case Mul => "MUL_REG" case Div => "DIV_REG"
                case Mod => "MOD_REG")
    case MoveImm(_, _) => "MOVE_IMM"
    case MoveReg(_, _) => "MOVE_REG"
    case BitReg(bit, _, _) => (match bit case And => "AND_REG" case Or => "OR_REG" case Xor => "XOR_REG")
    case Not(_) => "NOT"
    case Inc(_) => "INC"
    case Dec(_) => "DEC"
    case Lea(_, _, _, _) => "LEA"
    case Exchange(_, _) => "EXCG"
    case CmpReg(_, _) => "CMP_REG"
    case ClearFlags(clear) =>
      (match clear case ClearAll => "CFLAGS" case ClearCarry => "CLC" case ClearZero => "CLZ"
                   case ClearNegative => "CLN" case ClearOverflow => "CLO")
    case Reset => "RESET"
    case JmpOff(_) => "JMP_OFF"
    case JmpAddr(_) => "JMP_ADDR"
    case PushImm(_) => "PUSH_IMM"
    case PushReg(_) => "PUSH_REG"
    case PopReg(_) => "POP"
    case PushAll => "PUSHA"
    case PopAll => "POPA"
    case Loop(_) => "LOOP"
    case Other => ""
  }

  lemma PlaceArithmetic(i: Instr)
    requires i.Nop? || i.ArithImm? || i.ArithReg? || i.MoveImm? || i.MoveReg?
    ensures CodeOf(i) < |OPCODES_00| && OPCODES_00[CodeOf(i)] == Mnemonic(i)
  {
  }

  lemma PlaceLogic(i: Instr)
    requires i.JmpOff? || i.JmpAddr? || i.PushImm? || i.PushReg? || i.PopReg? || i.PushAll? || i.PopAll?
             || i.BitReg? || i.Not? || i.CmpReg? || i.Inc? || i.Dec? || i.Lea?
    ensures 0x20 <= CodeOf(i) < 0x20 + |OPCODES_20| && OPCODES_20[CodeOf(i) - 0x20] == Mnemonic(i)
  {
  }

  lemma PlaceOthers(i: Instr)
    requires i.Exchange? || i.ClearFlags? || i.Reset? || i.Loop?
    ensures 0x40 <= CodeOf(i) < 0x40 + |OPCODES_40| && OPCODES_40[CodeOf(i) - 0x40] == Mnemonic(i)
  {
  }

  /** The opcode of an instruction is the place of its name in that order. */
  lemma OpcodeIsPlace(i: Instr)
    requires Encodable(i)
    ensures Opcode(Encode(i)) < |OPCODES| && OPCODES[Opcode(Encode(i))] == Mnemonic(i)
  {
    DecodeEncode(i);
    if CodeOf(i) < 0x20 {
      PlaceArithmetic(i);
    } else if CodeOf(i) < 0x40 {
      PlaceLogic(i);
    } else {
      PlaceOthers(i);
    }
  }

  /** A jump by an offset moves pc by the signed number in the low 48 bits of the word. */
  lemma JumpIsSigned(c: State, distance: int, flags: Flags)
    requires -(BIT48 / 2) <= distance < BIT48 / 2
    ensures var i := JmpOff(Wrap(distance));
            Encodable(i) && Exec(c, Decode(Encode(i)), flags) == c.(pc := Wrap(c.pc as int + distance))
  {
    DecodeEncode(JmpOff(Wrap(distance)));
    WrapAdds(distance, c.pc);
  }

  lemma JumpMoves(c: State, distance: int, f: Flags)
    ensures Exec(Advanced(c), JmpOff(Wrap(distance)), f) == c.(pc := Wrap(c.pc as int + 1 + distance))
  {
    WrapAdds(c.pc as int + 1, Wrap(distance));
    WrapAdds(distance, c.pc as int + 1);
  }

  lemma TurnJumps(c: State, words: seq<qword>, w: qword, f: Flags)
    requires !c.stop && !c.outside && Fetch(words, PAGE_WORDS, c.pc) == Some(w)
    ensures Step(c, words, f) == Exec(Advanced(c), Decode(w), f)
  {
    StepExecutes(c, words, f);
  }

  /** A jump to an address and one by the offset that leads there do the same. */
  lemma JumpsAgree(c: State, near: seq<qword>, far: seq<qword>, target: nat, f: Flags, g: Flags)
    requires !c.stop && !c.outside && target < BIT48
    requires -(BIT48 / 2) <= target - (c.pc + 1) < BIT48 / 2
    requires Fetch(far, PAGE_WORDS, c.pc) == Some(Encode(JmpAddr(target)))
    requires Encodable(JmpOff(Wrap(target - (c.pc + 1))))
    requires Fetch(near, PAGE_WORDS, c.pc) == Some(Encode(JmpOff(Wrap(target - (c.pc + 1)))))
    ensures Step(c, far, f) == Step(c, near, g) == c.(pc := target)
  {
    var distance := target - (c.pc + 1);
    DecodeEncode(JmpAddr(target));
    DecodeEncode(JmpOff(Wrap(distance)));
    TurnJumps(c, far, Encode(JmpAddr(target)), f);
    TurnJumps(c, near, Encode(JmpOff(Wrap(distance))), g);
    JumpMoves(c, distance, g);
    WrapSmall(target);
  }

  /** A program that holds the words of straight-line instructions and of a LOOP back to the first of
      them has such a block there, so the step count of LoopTakesExactly holds for it. */
  lemma BlockOfWords(words: seq<qword>, start: nat, body: seq<Instr>)
    requires start < BIT48 && start + |body| < |words| && start + |body| < FIELD * PAGE_WORDS
    requires forall k :: 0 <= k < |body| ==>
               Encodable(body[k]) && StraightLine(body[k]) && words[start + k] == Encode(body[k])
    requires words[start + |body|] == Encode(Loop(start))
    ensures BlockAt(words, start, |body|)
  {
    DecodeEncode(Loop(start));
    EffectiveIsIdentityBelowLimit(start + |body|, PAGE_WORDS);
    forall k | start <= k < start + |body|
      ensures Fetch(words, PAGE_WORDS, k) == Some(Encode(body[k - start]))
      ensures Decode(Encode(body[k - start])) == body[k - start]
    {
      EffectiveIsIdentityBelowLimit(k, PAGE_WORDS);
      assert words[start + (k - start)] == Encode(body[k - start]);
      DecodeEncode(body[k - start]);
    }
  }
}
