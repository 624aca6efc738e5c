/** Runs of straight-line instructions that later instructions undo (merry/merry_core.c:94-105): whatever
    wraps and whatever the flags are, the registers come back. */
module CoreUndo {
  import opened Words
  import opened Wrappers
  import opened InstructionMemory
  import opened Core
  import opened CoreRuns
  import opened CoreFlags

  predicate Reversible(i: Instr) {
    match i
    case ArithImm(op, _, _) => op.Add? || op.Sub?
    case ArithReg(op, dst, src) => (op.Add? || op.Sub?) && dst != src
    case Inc(_) => true
    case Dec(_) => true
    case Not(_) => true
    case Exchange(_, _) => true
    case _ => false
  }

  function Inverse(i: Instr): Instr {
    match i
    case ArithImm(op, dst, imm) => ArithImm(if op.Add? then Sub else Add, dst, imm)
    case ArithReg(op, dst, src) => ArithReg(if op.Add? then Sub else Add, dst, src)
    case Inc(dst) => Dec(dst)
    case Dec(dst) => Inc(dst)
    case _ => i
  }

  /** The inverses in reverse order. */
  function Undo(body: seq<Instr>): (r: seq<Instr>)
    ensures |r| == |body|
  {
    if body == [] then [] else [Inverse(body[|body| - 1])] + Undo(body[..|body| - 1])
  }

  lemma InverseUndoes(c: State, i: Instr, f1: Flags, f2: Flags)
    requires Reversible(i)
    ensures Exec(Exec(c, i, f1), Inverse(i), f2).regs == c.regs
  {
    match i
    case ArithImm(_, dst, imm) => SumUndone(c, dst, imm, f1, f2);
    case ArithReg(_, dst, src) => DifferenceUndone(c, dst, src, f1, f2);
    case Inc(dst) => IncUndone(c, dst, f1, f2);
    case Dec(dst) => IncUndone(c, dst, f1, f2);
    case Not(dst) => ExchangeUndone(c, dst, dst, f1, f2);
    case Exchange(dst, src) => ExchangeUndone(c, dst, src, f1, f2);
  }

  lemma AfterInverse(regs: Regs, i: Instr)
    requires Reversible(i)
    ensures After(After(regs, i), Inverse(i)) == regs
  {
    var d := Exec(Bare(regs), i, NOFLAGS);
    InverseUndoes(Bare(regs), i, NOFLAGS, NOFLAGS);
    ReadsRegisters(Bare(d.regs), d, Inverse(i), NOFLAGS, NOFLAGS);
  }

  lemma {:induction false} FoldUndo(after: (Regs, Instr) -> Regs, regs: Regs, body: seq<Instr>)
    requires forall k :: 0 <= k < |body| ==> Reversible(body[k])
    requires forall r, i :: Reversible(i) ==> after(after(r, i), Inverse(i)) == r
    ensures Fold(after, regs, body + Undo(body)) == regs
    decreases |body|
  {
    FoldSplits(after, regs, body, Undo(body));
    if body != [] {
      var n := |body| - 1;
      var inverse := [Inverse(body[n])];
      FoldSplits(after, Fold(after, regs, body), inverse, Undo(body[..n]));
      assert inverse[..0] == [];
      FoldUndo(after, regs, body[..n]);
      FoldSplits(after, regs, body[..n], Undo(body[..n]));
    }
  }

  // On runs

  lemma {:induction false} UndoReversible(body: seq<Instr>)
    requires forall k :: 0 <= k < |body| ==> Reversible(body[k])
    ensures forall k :: 0 <= k < |body| ==> Reversible(Undo(body)[k])
    decreases |body|
  {
    if body != [] {
      UndoReversible(body[..|body| - 1]);
    }
  }

  /** Any sequence of reversible instructions followed by its inverses in reverse order: after exactly as
      many turns as there are instructions every register is as it was, for any flags. */
  lemma UndoRestores(c: State, words: seq<qword>, body: seq<Instr>, outcomes: seq<Flags>)
    requires forall k :: 0 <= k < |body| ==> Reversible(body[k])
    requires Ready(c, words, body + Undo(body)) && |outcomes| == 2 * |body|
    ensures Run(c, words, outcomes).regs == c.regs && Run(c, words, outcomes).greater == c.greater
    ensures MovedTo(c, Run(c, words, outcomes), c.pc + 2 * |body|)
  {
    var code := body + Undo(body);
    UndoReversible(body);
    RunFolds(c, words, code, outcomes);
    GreaterKept(c, words, code, outcomes);
    assert code[..|outcomes|] == code;
    forall r, i | Reversible(i) ensures After(After(r, i), Inverse(i)) == r {
      AfterInverse(r, i);
    }
    FoldUndo(After, c.regs, body);
  }

  // Division

  /** What a division divides by: the number in the instruction, or a register. */
  datatype Divisor = Number(imm: qword) | In(src: Reg)

  function Value(c: State, b: Divisor): qword {
    match b case Number(imm) => imm case In(src) => c.regs[src]
  }

  function By(op: Alu, dst: Reg, b: Divisor): Instr {
    match b case Number(imm) => ArithImm(op, dst, imm) case In(src) => ArithReg(op, dst, src)
  }

  lemma TurnDivides(c: State, words: seq<qword>, op: Alu, dst: Reg, b: Divisor, f: Flags)
    requires !c.stop && !c.outside && c.pc + 1 < TWO64 && (op.Div? || op.Mod?)
    requires Fetch(words, PAGE_WORDS, c.pc).Some? && Fetched(words, c.pc) == By(op, dst, b)
    ensures Step(c, words, f) == Core.Arith(Advanced(c), op, dst, Value(c, b), f)
    ensures Advanced(c) == c.(pc := c.pc + 1)
  {
    StepExecutes(c, words, f);
    WrapSmall(c.pc + 1);
  }

  /** Quotient and remainder recombine to the dividend, or a zero divisor stops the core at once. */
  predicate Divided(c: State, d: State, q: Reg, r: Reg, b: Divisor) {
    if Value(c, b) == 0 then d.stop && d.regs == c.regs && d.panics == c.panics + [53]
    else
      && MovedTo(c, d, c.pc + 2) && d.greater == c.greater
      && d.regs[q] as int * Value(c, b) as int + d.regs[r] as int == c.regs[r] as int
      && d.regs[r] < Value(c, b)
      && forall k: Reg :: k != q && k != r ==> d.regs[k] == c.regs[k]
  }

  /** The second of the two turns, once the quotient is there. */
  lemma RemainderTurn(c: State, d: State, words: seq<qword>, q: Reg, r: Reg, b: Divisor, f: Flags, g: Flags)
    requires q != r && (b.In? ==> b.src != q && b.src != r) && c.regs[q] == c.regs[r] && Value(c, b) != 0
    requires !c.stop && !c.outside && c.pc + 2 < TWO64
    requires d == Core.Arith(c.(pc := c.pc + 1), Div, q, Value(c, b), f)
    requires Fetch(words, PAGE_WORDS, d.pc).Some? && Fetched(words, d.pc) == By(Mod, r, b)
    ensures Divided(c, Step(d, words, g), q, r, b)
  {
    TurnDivides(d, words, Mod, r, b, g);
    QuotientAndRemainder(c, r, Value(c, b), g);
  }

  /** Two turns, a DIV and a MOD of two equal registers by a third or by a number. */
  lemma DivideAndRemain(c: State, words: seq<qword>, q: Reg, r: Reg, b: Divisor, f: Flags, g: Flags)
    requires q != r && (b.In? ==> b.src != q && b.src != r) && c.regs[q] == c.regs[r]
    requires Ready(c, words, [By(Div, q, b), By(Mod, r, b)])
    ensures Divided(c, Step(Step(c, words, f), words, g), q, r, b)
  {
    CodeElement(words, c.pc, [By(Div, q, b), By(Mod, r, b)], 0);
    CodeElement(words, c.pc, [By(Div, q, b), By(Mod, r, b)], 1);
    TurnDivides(c, words, Div, q, b, f);
    if Value(c, b) != 0 {
      RemainderTurn(c, Step(c, words, f), words, q, r, b, f, g);
    }
  }

  /** Wherever a run comes to such a pair with equal registers, two turns later it has divided. */
  lemma RunDivides(c: State, words: seq<qword>, outcomes: seq<Flags>, n: nat, q: Reg, r: Reg, b: Divisor)
    requires n + 2 <= |outcomes| && q != r && (b.In? ==> b.src != q && b.src != r)
    requires var d := Run(c, words, outcomes[..n]);
             d.regs[q] == d.regs[r] && Ready(d, words, [By(Div, q, b), By(Mod, r, b)])
    ensures Divided(Run(c, words, outcomes[..n]), Run(c, words, outcomes[..n + 2]), q, r, b)
  {
    RunOnce(c, words, outcomes, n);
    RunOnce(c, words, outcomes, n + 1);
    DivideAndRemain(Run(c, words, outcomes[..n]), words, q, r, b, outcomes[n], outcomes[n + 1]);
  }
}
