/** Runs over straight code that works on registers and flags (merry/merry_core.c:94-105): each turn takes
    one instruction, and what the run makes of the registers is what the instructions make one by one. */
module CoreRuns {
  import opened Words
  import opened InstructionMemory
  import opened Core

  /** Instructions that neither jump nor stop the core nor use the stack, whatever the registers hold. */
  predicate Quiet(i: Instr) {
    match i
    case Nop => true
    case ArithImm(op, _, imm) => (op.Div? || op.Mod?) ==> imm != 0
    case ArithReg(op, _, _) => !op.Div? && !op.Mod?
    case MoveImm(_, _) => true
    case MoveReg(_, _) => true
    case BitReg(_, _, _) => true
    case Not(_) => true
    case Inc(_) => true
    case Dec(_) => true
    case Lea(_, _, _, _) => true
    case Exchange(_, _) => true
    case CmpReg(_, _) => true
    case ClearFlags(_) => true
    case Reset => true
    case _ => false
  }

  predicate AllQuiet(code: seq<Instr>) {
    forall k :: 0 <= k < |code| ==> Quiet(code[k])
  }

  // On registers alone

  type Regs = r: seq<qword> | |r| == 16 witness seq(16, _ => 0)

  const NOFLAGS: Flags := Flags(false, false, false, false)

  /** A core with these registers. */
  function Bare(regs: Regs): State {
    Init(seq(STACK_LIMIT + 1, _ => 0), NOFLAGS, false).(regs := regs)
  }

  /** What an instruction makes of the registers. */
  function After(regs: Regs, i: Instr): Regs {
    Exec(Bare(regs), i, NOFLAGS).regs
  }

  /** A quiet instruction reads registers only to write registers ... */
  lemma ReadsRegisters(c: State, d: State, i: Instr, f: Flags, g: Flags)
    requires Quiet(i) && c.regs == d.regs
    ensures Exec(c, i, f).regs == Exec(d, i, g).regs
  {
    match i
    case ArithImm(op, dst, imm) =>
      assert Exec(c, i, f).regs == Core.Arith(c, op, dst, imm, f).regs;
      assert Exec(d, i, g).regs == Core.Arith(d, op, dst, imm, g).regs;
    case ArithReg(op, dst, src) =>
      assert Exec(c, i, f).regs == Core.Arith(c, op, dst, c.regs[src], f).regs;
      assert Exec(d, i, g).regs == Core.Arith(d, op, dst, c.regs[src], g).regs;
    case _ =>
  }

  /** ... and writes nothing but registers, flags and the mark of a comparison. */
  lemma WritesRegisters(c: State, i: Instr, f: Flags)
    requires Quiet(i)
    ensures var d := Exec(c, i, f); d == c.(regs := d.regs, flags := d.flags, greater := d.greater)
  {
  }

  function Fold(after: (Regs, Instr) -> Regs, regs: Regs, code: seq<Instr>): Regs {
    if code == [] then regs else after(Fold(after, regs, code[..|code| - 1]), code[|code| - 1])
  }

  lemma FoldNext(after: (Regs, Instr) -> Regs, regs: Regs, code: seq<Instr>, n: nat)
    requires n < |code|
    ensures Fold(after, regs, code[..n + 1]) == after(Fold(after, regs, code[..n]), code[n])
  {
    assert code[..n + 1][..n] == code[..n];
  }

  lemma {:induction false} FoldSplits(after: (Regs, Instr) -> Regs, regs: Regs, a: seq<Instr>, b: seq<Instr>)
    ensures Fold(after, regs, a + b) == Fold(after, Fold(after, regs, a), b)
    decreases |b|
  {
    if b == [] {
      assert a + b == a;
    } else {
      var last := |b| - 1;
      assert (a + b)[..|a + b| - 1] == a + b[..last];
      FoldSplits(after, regs, a, b[..last]);
    }
  }

  // On runs

  /** The program holds the words of `code` from `start` on. */
  predicate CodeAt(words: seq<qword>, start: nat, code: seq<Instr>) {
    && start + |code| < TWO64
    && forall k :: 0 <= k < |code| ==>
         Fetch(words, PAGE_WORDS, start + k).Some? && Fetched(words, start + k) == code[k]
  }

  /** The core still runs, at pc, and its stack is as it was. */
  predicate MovedTo(c: State, d: State, pc: nat) {
    && !d.stop && !d.outside && d.pc == pc
    && d.sp == c.sp && d.stack == c.stack && d.panics == c.panics
  }

  /** The core stands in front of the code and can run it. */
  predicate Ready(c: State, words: seq<qword>, code: seq<Instr>) {
    !c.stop && !c.outside && CodeAt(words, c.pc, code)
  }

  lemma CodeElement(words: seq<qword>, start: nat, code: seq<Instr>, k: nat)
    requires CodeAt(words, start, code) && k < |code|
    ensures Fetch(words, PAGE_WORDS, start + k).Some? && Fetched(words, start + k) == code[k]
  {
  }

  lemma RunOnce(c: State, words: seq<qword>, outcomes: seq<Flags>, n: nat)
    requires n < |outcomes|
    ensures Run(c, words, outcomes[..n + 1]) == Step(Run(c, words, outcomes[..n]), words, outcomes[n])
  {
    assert outcomes[..n + 1][..n] == outcomes[..n];
  }

  lemma TurnQuiet(c: State, words: seq<qword>, i: Instr, f: Flags)
    requires !c.stop && !c.outside && c.pc + 1 < TWO64 && Quiet(i)
    requires Fetch(words, PAGE_WORDS, c.pc).Some? && Fetched(words, c.pc) == i
    ensures MovedTo(c, Step(c, words, f), c.pc + 1)
    ensures Step(c, words, f) == Exec(Advanced(c), i, f)
    ensures Step(c, words, f).regs == After(c.regs, i)
  {
    StepExecutes(c, words, f);
    ReadsRegisters(Advanced(c), Bare(c.regs), i, f, NOFLAGS);
    WritesRegisters(Advanced(c), i, f);
    WrapSmall(c.pc + 1);
  }

  /** `d` has executed the first n instructions of the code. */
  predicate FoldedTo(c: State, d: State, code: seq<Instr>, n: nat) {
    n <= |code| && MovedTo(c, d, c.pc + n) && d.regs == Fold(After, c.regs, code[..n])
  }

  lemma FoldTurn(c: State, d: State, words: seq<qword>, code: seq<Instr>, n: nat, f: Flags)
    requires n < |code| && CodeAt(words, c.pc, code) && Quiet(code[n]) && FoldedTo(c, d, code, n)
    ensures FoldedTo(c, Step(d, words, f), code, n + 1)
    ensures Step(d, words, f) == Exec(Advanced(d), code[n], f)
  {
    CodeElement(words, c.pc, code, n);
    TurnQuiet(d, words, code[n], f);
    FoldNext(After, c.regs, code, n);
  }

  lemma {:induction false} RunFolds(c: State, words: seq<qword>, code: seq<Instr>, outcomes: seq<Flags>)
    requires Ready(c, words, code) && AllQuiet(code) && |outcomes| <= |code|
    ensures FoldedTo(c, Run(c, words, outcomes), code, |outcomes|)
    decreases |outcomes|
  {
    if outcomes != [] {
      var last := |outcomes| - 1;
      RunFolds(c, words, code, outcomes[..last]);
      FoldTurn(c, Run(c, words, outcomes[..last]), words, code, last, outcomes[last]);
    }
  }

  // The end of a run

  /** A core that has stopped takes no further turn. */
  lemma {:induction false} StoppedForGood(c: State, words: seq<qword>, outcomes: seq<Flags>, n: nat)
    requires n <= |outcomes| && Run(c, words, outcomes[..n]).stop
    ensures Run(c, words, outcomes) == Run(c, words, outcomes[..n])
    decreases |outcomes|
  {
    if n == |outcomes| {
      assert outcomes[..n] == outcomes;
    } else {
      var last := |outcomes| - 1;
      assert outcomes[..last][..n] == outcomes[..n];
      StoppedForGood(c, words, outcomes[..last], n);
    }
  }

  /** A run that comes to an address without an instruction ends there, with the invalid-access error and
      everything else as it was. */
  lemma RunLeavesProgram(c: State, words: seq<qword>, outcomes: seq<Flags>, n: nat)
    requires n < |outcomes|
    requires var d := Run(c, words, outcomes[..n]);
             !d.stop && !d.outside && Fetch(words, PAGE_WORDS, d.pc).None?
    ensures var d := Run(c, words, outcomes[..n]);
            Run(c, words, outcomes) == d.(stop := true, panics := d.panics + [52])
  {
    RunOnce(c, words, outcomes, n);
    StoppedForGood(c, words, outcomes, n + 1);
  }
}
