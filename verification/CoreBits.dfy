/** Straight code of AND, OR, XOR, NOT, moves and exchanges (merry/merry_core.c:296-316) works on each bit
    by itself: bit k of every register, at the end of a run, is what the code computes with bits k. */
module CoreBits {
  import opened Bits
  import opened Words
  import opened InstructionMemory
  import opened Core
  import opened CoreRuns

  predicate Logical(i: Instr) {
    i.BitReg? || i.Not? || i.MoveReg? || i.MoveImm? || i.Exchange? || i.Reset? || i.Nop?
  }

  predicate AllLogical(code: seq<Instr>) {
    forall k :: 0 <= k < |code| ==> Logical(code[k])
  }

  // The reference: registers of one bit

  type Column = b: seq<bool> | |b| == 16 witness seq(16, _ => false)

  /** What the code computes with bits k; a number moved in brings its own bit k. */
  function BitAfter(b: Column, i: Instr, k: nat): Column {
    match i
    case BitReg(And, dst, src) => b[dst := b[dst] && b[src]]
    case BitReg(Or, dst, src) => b[dst := b[dst] || b[src]]
    case BitReg(Xor, dst, src) => b[dst := b[dst] != b[src]]
    case Not(dst) => b[dst := !b[dst]]
    case MoveReg(dst, src) => b[dst := b[src]]
    case MoveImm(dst, imm) => b[dst := imm / Pow2(k) % 2 == 1]
    case Exchange(dst, src) => b[dst := b[src]][src := b[dst]]
    case Reset => seq(16, _ => false)
    case _ => b
  }

  function BitRun(b: Column, code: seq<Instr>, k: nat): Column {
    if code == [] then b else BitAfter(BitRun(b, code[..|code| - 1], k), code[|code| - 1], k)
  }

  /** Bit k of every register. */
  function ColumnOf(regs: Regs, k: nat): Column {
    seq(16, r requires 0 <= r < 16 => regs[r] / Pow2(k) % 2 == 1)
  }

  lemma BitwiseAt(bit: Bit, a: qword, b: qword, k: nat)
    requires k < 64
    ensures Bitwise(bit, a, b) / Pow2(k) % 2 == 1 <==>
            Both(bit, a / Pow2(k) % 2 == 1, b / Pow2(k) % 2 == 1)
  {
    BitIsDigit(a, k);
    BitIsDigit(b, k);
    BitIsDigit(Bitwise(bit, a, b), k);
    BitOfFromBits(seq(64, j requires 0 <= j < 64 => Both(bit, BitAt(a, j), BitAt(b, j))), k);
  }

  lemma NotAt(a: qword, k: nat)
    requires k < 64
    ensures (TWO64 - 1 - a) / Pow2(k) % 2 == 1 <==> a / Pow2(k) % 2 != 1
  {
    Pow64();
    BitIsDigit(a, k);
    BitIsDigit(TWO64 - 1 - a, k);
    ComplementAt(a, 64, k);
  }

  lemma ColumnUpdate(regs: Regs, r: Reg, v: qword, k: nat)
    ensures ColumnOf(regs[r := v], k) == ColumnOf(regs, k)[r := v / Pow2(k) % 2 == 1]
  {
  }

  lemma ZeroAt(k: nat)
    ensures 0 / Pow2(k) % 2 == 0
  {
  }

  lemma StepOfBits(regs: Regs, i: Instr, k: nat)
    requires Logical(i) && k < 64
    ensures ColumnOf(After(regs, i), k) == BitAfter(ColumnOf(regs, k), i, k)
  {
    match i
    case BitReg(bit, dst, src) =>
      BitwiseAt(bit, regs[dst], regs[src], k);
      ColumnUpdate(regs, dst, Bitwise(bit, regs[dst], regs[src]), k);
    case Not(dst) =>
      NotAt(regs[dst], k);
      ColumnUpdate(regs, dst, TWO64 - 1 - regs[dst], k);
    case MoveReg(dst, src) => ColumnUpdate(regs, dst, regs[src], k);
    case MoveImm(dst, imm) => ColumnUpdate(regs, dst, imm, k);
    case Exchange(dst, src) =>
      ColumnUpdate(regs, dst, regs[src], k);
      ColumnUpdate(regs[dst := regs[src]], src, regs[dst], k);
    case Reset => ZeroAt(k);
    case Nop =>
  }

  lemma {:induction false} FoldOfBits(regs: Regs, code: seq<Instr>, k: nat)
    requires AllLogical(code) && k < 64
    ensures ColumnOf(Fold(After, regs, code), k) == BitRun(ColumnOf(regs, k), code, k)
    decreases |code|
  {
    if code != [] {
      var last := |code| - 1;
      FoldOfBits(regs, code[..last], k);
      StepOfBits(Fold(After, regs, code[..last]), code[last], k);
    }
  }

  lemma RunIsBitwise(c: State, words: seq<qword>, code: seq<Instr>, outcomes: seq<Flags>, k: nat)
    requires Ready(c, words, code) && AllLogical(code) && |outcomes| == |code| && k < 64
    ensures ColumnOf(Run(c, words, outcomes).regs, k) == BitRun(ColumnOf(c.regs, k), code, k)
    ensures MovedTo(c, Run(c, words, outcomes), c.pc + |code|)
  {
    RunFolds(c, words, code, outcomes);
    assert code[..|outcomes|] == code;
    FoldOfBits(c.regs, code, k);
  }

  /** Registers with the same bits are equal, so the columns determine the registers. */
  lemma SameColumns(a: Regs, b: Regs)
    requires forall k :: 0 <= k < 64 ==> ColumnOf(a, k) == ColumnOf(b, k)
    ensures a == b
  {
    Pow64();
    forall r | 0 <= r < 16 ensures a[r] == b[r] {
      forall k | 0 <= k < 64 ensures BitAt(a[r], k) == BitAt(b[r], k) {
        BitIsDigit(a[r], k);
        BitIsDigit(b[r], k);
        assert ColumnOf(a, k)[r] == ColumnOf(b, k)[r];
      }
      EqualBits(a[r], b[r], 64);
    }
  }

  // Exchanging without a third register

  function XorSwap(a: Reg, b: Reg): seq<Instr> {
    [BitReg(Xor, a, b), BitReg(Xor, b, a), BitReg(Xor, a, b)]
  }

  lemma SwapOfBits(col: Column, a: Reg, b: Reg, k: nat)
    requires a != b
    ensures BitRun(col, XorSwap(a, b), k) == col[a := col[b]][b := col[a]]
  {
    var x, y := BitReg(Xor, a, b), BitReg(Xor, b, a);
    assert XorSwap(a, b)[..2] == [x, y] && [x, y][..1] == [x] && [x][..0] == [];
    var one := BitAfter(col, x, k);
    var two := BitAfter(one, y, k);
    assert BitRun(col, [x], k) == one;
    assert BitRun(col, [x, y], k) == two;
    assert BitRun(col, XorSwap(a, b), k) == BitAfter(two, x, k);
  }

  /** Three turns of XOR exchange two registers; EXCG does it in one. */
  lemma RunSwaps(c: State, words: seq<qword>, a: Reg, b: Reg, outcomes: seq<Flags>)
    requires a != b && |outcomes| == 3 && Ready(c, words, XorSwap(a, b))
    ensures Run(c, words, outcomes).regs == c.regs[a := c.regs[b]][b := c.regs[a]]
  {
    var swapped: Regs := c.regs[a := c.regs[b]][b := c.regs[a]];
    forall k | 0 <= k < 64 ensures ColumnOf(Run(c, words, outcomes).regs, k) == ColumnOf(swapped, k) {
      RunIsBitwise(c, words, XorSwap(a, b), outcomes, k);
      SwapOfBits(ColumnOf(c.regs, k), a, b, k);
      ColumnUpdate(c.regs, a, c.regs[b], k);
      ColumnUpdate(c.regs[a := c.regs[b]], b, c.regs[a], k);
    }
    SameColumns(Run(c, words, outcomes).regs, swapped);
  }
}
