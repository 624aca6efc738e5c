/** Straight code of moves, additions, subtractions and products (merry/core/merry_core.h:155-171,
    merry/merry_core.c:358-362, 821-837) computes with whole numbers: cutting every single result to 64 bits,
    as the registers do, comes to the same as cutting the numbers once at the end of the run. */
module CoreIntegers {
  import opened Arith
  import opened Words
  import opened InstructionMemory
  import opened Core
  import opened CoreRuns

  predicate Integral(i: Instr) {
    match i
    case ArithImm(op, _, _) => op.Add? || op.Sub? || op.Mul?
    case ArithReg(op, _, _) => op.Add? || op.Sub? || op.Mul?
    case MoveImm(_, _) => true
    case MoveReg(_, _) => true
    case Not(_) => true
    case Inc(_) => true
    case Dec(_) => true
    case Lea(_, _, _, _) => true
    case Exchange(_, _) => true
    case Reset => true
    case Nop => true
    case _ => false
  }

  predicate AllIntegral(code: seq<Instr>) {
    forall k :: 0 <= k < |code| ==> Integral(code[k])
  }

  // The reference: registers that hold any whole number

  type Ints = z: seq<int> | |z| == 16 witness seq(16, _ => 0)

  function IntCompute(op: Alu, a: int, b: int): int {
    match op
    case Add => a + b
    case Sub => a - b
    case Mul => a * b
    case _ => 0
  }

  function IntAfter(z: Ints, i: Instr): Ints {
    match i
    case ArithImm(op, dst, imm) => z[dst := IntCompute(op, z[dst], imm)]
    case ArithReg(op, dst, src) => z[dst := IntCompute(op, z[dst], z[src])]
    case MoveImm(dst, imm) => z[dst := imm]
    case MoveReg(dst, src) => z[dst := z[src]]
    case Not(dst) => z[dst := -1 - z[dst]]
    case Inc(dst) => z[dst := z[dst] + 1]
    case Dec(dst) => z[dst := z[dst] - 1]
    case Lea(dst, base, index, scale) => z[dst := z[base] + z[index] * z[scale]]
    case Exchange(dst, src) => z[dst := z[src]][src := z[dst]]
    case Reset => seq(16, _ => 0)
    case _ => z
  }

  function IntRun(z: Ints, code: seq<Instr>): Ints {
    if code == [] then z else IntAfter(IntRun(z, code[..|code| - 1]), code[|code| - 1])
  }

  /** The numbers as 64-bit words. */
  function Cut(z: Ints): Regs {
    seq(16, r requires 0 <= r < 16 => Wrap(z[r]))
  }

  // Cutting before or after

  lemma WrapShift(n: int, k: int)
    ensures Wrap(n + k * TWO64) == Wrap(n)
  {
  }

  lemma WrapIs(n: int)
    ensures n == Wrap(n) as int + n / TWO64 * TWO64
  {
  }

  lemma ProductOfSums(a: int, p: int, b: int, q: int)
    ensures (a + p * TWO64) * (b + q * TWO64) == a * b + (a * q + p * b + p * q * TWO64) * TWO64
  {
    calc {
      (a + p * TWO64) * (b + q * TWO64);
      a * (b + q * TWO64) + p * TWO64 * (b + q * TWO64);
      a * b + a * (q * TWO64) + (p * TWO64 * b + p * TWO64 * (q * TWO64));
    }
    assert a * (q * TWO64) == a * q * TWO64;
    assert p * TWO64 * b == p * b * TWO64;
    assert p * TWO64 * (q * TWO64) == p * q * TWO64 * TWO64;
  }

  lemma WrapProduct(a: int, b: int)
    ensures Wrap(Wrap(a) as int * Wrap(b) as int) == Wrap(a * b)
  {
    var p, q := a / TWO64, b / TWO64;
    WrapIs(a);
    WrapIs(b);
    ProductOfSums(Wrap(a), p, Wrap(b), q);
    WrapShift(Wrap(a) as int * Wrap(b) as int, Wrap(a) as int * q + p * Wrap(b) as int + p * q * TWO64);
  }

  lemma WrapSumOf(a: int, b: int)
    ensures Wrap(Wrap(a) as int + Wrap(b) as int) == Wrap(a + b)
    ensures Wrap(Wrap(a) as int - Wrap(b) as int) == Wrap(a - b)
  {
    WrapAdds(a, Wrap(b));
    WrapAdds(b, a);
    WrapAdds(a, -(Wrap(b) as int));
    WrapIs(b);
    WrapShift(a - b, b / TWO64);
  }

  lemma ComputeCuts(op: Alu, a: int, b: int)
    requires op.Add? || op.Sub? || op.Mul?
    ensures Compute(op, Wrap(a), Wrap(b)) == Wrap(IntCompute(op, a, b))
  {
    WrapSumOf(a, b);
    WrapProduct(a, b);
  }

  lemma CutUpdate(z: Ints, r: Reg, v: int)
    ensures Cut(z[r := v]) == Cut(z)[r := Wrap(v)]
  {
  }

  lemma ArithCuts(z: Ints, i: Instr)
    requires Integral(i) && (i.ArithImm? || i.ArithReg?)
    ensures After(Cut(z), i) == Cut(IntAfter(z, i))
  {
    match i
    case ArithImm(op, dst, imm) =>
      WrapSmall(imm);
      ComputeCuts(op, z[dst], imm);
      CutUpdate(z, dst, IntCompute(op, z[dst], imm));
    case ArithReg(op, dst, src) =>
      ComputeCuts(op, z[dst], z[src]);
      CutUpdate(z, dst, IntCompute(op, z[dst], z[src]));
  }

  lemma LeaCuts(z: Ints, dst: Reg, base: Reg, index: Reg, scale: Reg)
    ensures After(Cut(z), Lea(dst, base, index, scale)) == Cut(IntAfter(z, Lea(dst, base, index, scale)))
  {
    WrapProduct(z[index], z[scale]);
    WrapAdds(Wrap(z[index]) as int * Wrap(z[scale]) as int, Wrap(z[base]));
    WrapSumOf(z[base], z[index] * z[scale]);
    CutUpdate(z, dst, z[base] + z[index] * z[scale]);
  }

  lemma OneCuts(z: Ints, dst: Reg)
    ensures After(Cut(z), Inc(dst)) == Cut(IntAfter(z, Inc(dst)))
    ensures After(Cut(z), Dec(dst)) == Cut(IntAfter(z, Dec(dst)))
    ensures After(Cut(z), Not(dst)) == Cut(IntAfter(z, Not(dst)))
  {
    WrapAdds(z[dst], 1);
    WrapAdds(z[dst], -1);
    ComplementCuts(z[dst]);
    CutUpdate(z, dst, z[dst] + 1);
    CutUpdate(z, dst, z[dst] - 1);
    CutUpdate(z, dst, -1 - z[dst]);
  }

  lemma ComplementCuts(a: int)
    ensures TWO64 - 1 - Wrap(a) == Wrap(-1 - a)
  {
  }

  lemma ExchangeCuts(z: Ints, dst: Reg, src: Reg)
    ensures After(Cut(z), Exchange(dst, src)) == Cut(IntAfter(z, Exchange(dst, src)))
  {
    CutUpdate(z, dst, z[src]);
    CutUpdate(z[dst := z[src]], src, z[dst]);
  }

  lemma StepCuts(z: Ints, i: Instr)
    requires Integral(i)
    ensures After(Cut(z), i) == Cut(IntAfter(z, i))
  {
    match i
    case ArithImm(_, _, _) => ArithCuts(z, i);
    case ArithReg(_, _, _) => ArithCuts(z, i);
    case Lea(dst, base, index, scale) => LeaCuts(z, dst, base, index, scale);
    case Inc(dst) => OneCuts(z, dst);
    case Dec(dst) => OneCuts(z, dst);
    case Not(dst) => OneCuts(z, dst);
    case Exchange(dst, src) => ExchangeCuts(z, dst, src);
    case MoveImm(dst, imm) =>
      WrapSmall(imm);
      CutUpdate(z, dst, imm);
    case MoveReg(dst, src) => CutUpdate(z, dst, z[src]);
    case Reset => assert Cut(seq(16, _ => 0)) == seq(16, _ => 0);
    case Nop =>
  }

  lemma {:induction false} FoldCuts(z: Ints, code: seq<Instr>)
    requires AllIntegral(code)
    ensures Fold(After, Cut(z), code) == Cut(IntRun(z, code))
    decreases |code|
  {
    if code != [] {
      var last := |code| - 1;
      FoldCuts(z, code[..last]);
      StepCuts(IntRun(z, code[..last]), code[last]);
    }
  }

  /** Run on registers that hold whole numbers cut to 64 bits, such code leaves what it computes with the
      whole numbers, cut to 64 bits: in as many turns as it has instructions, for any flags. */
  lemma RunIsInteger(c: State, words: seq<qword>, code: seq<Instr>, outcomes: seq<Flags>, z: Ints)
    requires Ready(c, words, code) && AllIntegral(code) && |outcomes| == |code| && c.regs == Cut(z)
    ensures Run(c, words, outcomes).regs == Cut(IntRun(z, code))
    ensures MovedTo(c, Run(c, words, outcomes), c.pc + |code|)
  {
    RunFolds(c, words, code, outcomes);
    assert code[..|outcomes|] == code;
    FoldCuts(z, code);
  }

  // Multiplication is repeated addition

  function Repeat(n: nat, i: Instr): (code: seq<Instr>)
    ensures |code| == n
  {
    seq(n, _ => i)
  }

  lemma {:induction false} SumOfMany(z: Ints, dst: Reg, src: Reg, n: nat)
    requires dst != src
    ensures IntRun(z, Repeat(n, ArithReg(Add, dst, src))) == z[dst := z[dst] + n * z[src]]
  {
    var code := Repeat(n, ArithReg(Add, dst, src));
    if n > 0 {
      SumOfMany(z, dst, src, n - 1);
      assert code[..n - 1] == Repeat(n - 1, ArithReg(Add, dst, src));
      assert z[dst] + (n - 1) * z[src] + z[src] == z[dst] + n * z[src];
    }
  }

  lemma Uncut(regs: Regs)
    ensures Cut(regs) == regs
  {
    forall r | 0 <= r < 16 ensures Cut(regs)[r] == regs[r] {
      WrapSmall(regs[r]);
    }
  }

  lemma CutOne(regs: Regs, r: Reg, v: int)
    ensures var z: Ints := regs; Cut(z[r := v]) == regs[r := Wrap(v)]
  {
    Uncut(regs);
    CutUpdate(regs, r, v);
  }

  /** The same with the registers as they are. */
  lemma RunFromRegisters(c: State, words: seq<qword>, code: seq<Instr>, outcomes: seq<Flags>)
    requires Ready(c, words, code) && AllIntegral(code) && |outcomes| == |code|
    ensures Run(c, words, outcomes).regs == Cut(IntRun(c.regs, code))
  {
    Uncut(c.regs);
    RunIsInteger(c, words, code, outcomes, c.regs);
  }

  lemma RepeatIntegral(n: nat, i: Instr)
    requires Integral(i)
    ensures AllIntegral(Repeat(n, i))
  {
  }

  /** n turns of ADD dst, src add n times the source, modulo 2^64. */
  lemma RunAddsRepeatedly(c: State, words: seq<qword>, dst: Reg, src: Reg, n: nat, outcomes: seq<Flags>)
    requires dst != src && |outcomes| == n && Ready(c, words, Repeat(n, ArithReg(Add, dst, src)))
    ensures Run(c, words, outcomes).regs == c.regs[dst := Wrap(c.regs[dst] as int + n * c.regs[src] as int)]
  {
    RepeatIntegral(n, ArithReg(Add, dst, src));
    RunFromRegisters(c, words, Repeat(n, ArithReg(Add, dst, src)), outcomes);
    SumOfMany(c.regs, dst, src, n);
    CutOne(c.regs, dst, c.regs[dst] as int + n * c.regs[src] as int);
  }

  /** The n-fold of a register, in 64 bits. */
  function Times(n: nat, v: qword): qword {
    Wrap(n * v)
  }

  lemma RunAddsToZero(c: State, words: seq<qword>, dst: Reg, src: Reg, n: nat, outcomes: seq<Flags>)
    requires dst != src && c.regs[dst] == 0 && |outcomes| == n && Ready(c, words, Repeat(n, ArithReg(Add, dst, src)))
    ensures Run(c, words, outcomes).regs == c.regs[dst := Times(n, c.regs[src])]
  {
    RunAddsRepeatedly(c, words, dst, src, n, outcomes);
    assert c.regs[dst] as int + n * c.regs[src] as int == n * c.regs[src] as int;
  }

  lemma MoveAndMultiply(z: Ints, dst: Reg, src: Reg, n: qword)
    ensures IntRun(z, [MoveReg(dst, src), ArithImm(Mul, dst, n)]) == z[dst := n * z[src]]
  {
    var code := [MoveReg(dst, src), ArithImm(Mul, dst, n)];
    assert code[..1] == [MoveReg(dst, src)] && [MoveReg(dst, src)][..0] == [];
    assert IntRun(z, [MoveReg(dst, src)]) == z[dst := z[src]];
  }

  /** A move and a product with n. */
  lemma RunMultiplies(c: State, words: seq<qword>, dst: Reg, src: Reg, n: qword, outcomes: seq<Flags>)
    requires |outcomes| == 2 && Ready(c, words, [MoveReg(dst, src), ArithImm(Mul, dst, n)])
    ensures Run(c, words, outcomes).regs == c.regs[dst := Times(n, c.regs[src])]
  {
    RunFromRegisters(c, words, [MoveReg(dst, src), ArithImm(Mul, dst, n)], outcomes);
    MoveAndMultiply(c.regs, dst, src, n);
    CutOne(c.regs, dst, n as int * c.regs[src] as int);
  }

  /** Such a product is what n additions to 0 make. */
  lemma MultiplyIsRepeatedAdd(c: State, adding: seq<qword>, multiplying: seq<qword>, dst: Reg, src: Reg, n: qword,
                              turns: seq<Flags>, two: seq<Flags>)
    requires dst != src && c.regs[dst] == 0 && |turns| == n && |two| == 2
    requires Ready(c, adding, Repeat(n, ArithReg(Add, dst, src)))
    requires Ready(c, multiplying, [MoveReg(dst, src), ArithImm(Mul, dst, n)])
    ensures Run(c, adding, turns).regs == Run(c, multiplying, two).regs
  {
    RunAddsToZero(c, adding, dst, src, n, turns);
    RunMultiplies(c, multiplying, dst, src, n, two);
  }
}
