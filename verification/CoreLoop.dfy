/** Runs of a block of straight-line instructions that a LOOP closes (merry/merry_core.c:94-105,
    merry/merry_core.c:535-541): how many turns of the interpreter they take. */
module CoreLoop {
  import opened Words
  import opened InstructionMemory
  import opened Core

  /** Register instructions that neither jump nor fail nor write Mc, whatever the registers hold. */
  predicate StraightLine(i: Instr) {
    match i
    case Nop => true
    case ArithImm(op, dst, imm) => dst != MC && ((op.Div? || op.Mod?) ==> imm != 0)
    case ArithReg(op, dst, _) => dst != MC && !op.Div? && !op.Mod?
    case MoveImm(dst, _) => dst != MC
    case MoveReg(dst, _) => dst != MC
    case BitReg(_, dst, _) => dst != MC
    case Not(dst) => dst != MC
    case Inc(dst) => dst != MC
    case Dec(dst) => dst != MC
    case Lea(dst, _, _, _) => dst != MC
    case Exchange(dst, src) => dst != MC && src != MC
    case CmpReg(_, _) => true
    case ClearFlags(_) => true
    case _ => false
  }

  /** m straight-line instructions at `start`, then a LOOP back to `start`. */
  predicate BlockAt(words: seq<qword>, start: nat, m: nat) {
    && start + m + 1 < TWO64
    && (forall k :: start <= k < start + m ==>
          Fetch(words, PAGE_WORDS, k).Some? && StraightLine(Decode(Fetch(words, PAGE_WORDS, k).value)))
    && Fetch(words, PAGE_WORDS, start + m).Some?
    && Decode(Fetch(words, PAGE_WORDS, start + m).value) == Loop(start)
  }

  predicate Inside(c: State, start: nat, m: nat) {
    !c.stop && !c.outside && start <= c.pc <= start + m
  }

  /** The turns still to be taken: every remaining pass has m + 1. */
  function TurnsLeft(c: State, start: nat, m: nat): nat
    requires start <= c.pc <= start + m
  {
    c.regs[MC] * (m + 1) + (start + m - c.pc) + 1
  }

  lemma StraightStep(c: State, i: Instr, flags: Flags)
    requires StraightLine(i)
    ensures Exec(c, i, flags).regs[MC] == c.regs[MC] && Exec(c, i, flags).pc == c.pc
    ensures Exec(c, i, flags).stop == c.stop && Exec(c, i, flags).outside == c.outside
    ensures Exec(c, i, flags).panics == c.panics
    ensures Exec(c, i, flags).sp == c.sp && Exec(c, i, flags).stack == c.stack
  {
  }

  lemma LoopStep(c: State, target: qword, flags: Flags)
    ensures Exec(c, Loop(target), flags) ==
            if c.regs[MC] == 0 then c else c.(regs := c.regs[MC := c.regs[MC] - 1], pc := target)
  {
  }

  /** One turn inside the block uses up one of the turns left; the last one leaves the block. */
  lemma TurnInBlock(c: State, words: seq<qword>, start: nat, m: nat, flags: Flags)
    requires BlockAt(words, start, m) && Inside(c, start, m)
    ensures var d := Step(c, words, flags);
            if TurnsLeft(c, start, m) == 1
              then d.pc == start + m + 1 && d.regs[MC] == 0 && !d.stop && !d.outside
              else Inside(d, start, m) && TurnsLeft(d, start, m) == TurnsLeft(c, start, m) - 1
    ensures Step(c, words, flags).panics == c.panics
    ensures Step(c, words, flags).sp == c.sp && Step(c, words, flags).stack == c.stack
  {
    StepExecutes(c, words, flags);
    var next := Advanced(c);
    assert next.pc == c.pc + 1;
    if c.pc < start + m {
      StraightStep(next, Fetched(words, c.pc), flags);
      TurnsPositive(c.regs[MC], m);
    } else {
      LoopStep(next, start, flags);
      if c.regs[MC] > 0 {
        PassTaken(c.regs[MC], m);
      }
    }
  }

  lemma TurnsPositive(n: nat, m: nat)
    ensures n * (m + 1) >= 0
  {
  }

  lemma PassTaken(n: nat, m: nat)
    requires n > 0
    ensures n * (m + 1) == (n - 1) * (m + 1) + (m + 1)
    ensures (n - 1) * (m + 1) >= 0
  {
  }

  lemma {:induction false} InBlockUntilLastTurn(c: State, words: seq<qword>, start: nat, m: nat, outcomes: seq<Flags>)
    requires BlockAt(words, start, m) && Inside(c, start, m)
    requires |outcomes| < TurnsLeft(c, start, m)
    ensures Inside(Run(c, words, outcomes), start, m)
    ensures TurnsLeft(Run(c, words, outcomes), start, m) == TurnsLeft(c, start, m) - |outcomes|
    ensures Run(c, words, outcomes).panics == c.panics
    ensures Run(c, words, outcomes).sp == c.sp && Run(c, words, outcomes).stack == c.stack
    decreases |outcomes|
  {
    if outcomes != [] {
      var last := |outcomes| - 1;
      InBlockUntilLastTurn(c, words, start, m, outcomes[..last]);
      TurnInBlock(Run(c, words, outcomes[..last]), words, start, m, outcomes[last]);
    }
  }

  /** Entered with Mc = n, the block takes exactly (n + 1) * (m + 1) turns whatever the flags are: no
      shorter run leaves it, and then the next instruction is due, with Mc = 0, no error, and the
      operand stack as it was. */
  lemma LoopTakesExactly(c: State, words: seq<qword>, start: nat, m: nat, outcomes: seq<Flags>)
    requires BlockAt(words, start, m) && !c.stop && !c.outside && c.pc == start
    requires |outcomes| <= (c.regs[MC] + 1) * (m + 1)
    ensures var d := Run(c, words, outcomes);
            if |outcomes| < (c.regs[MC] + 1) * (m + 1)
              then start <= d.pc <= start + m
              else d.pc == start + m + 1 && d.regs[MC] == 0
    ensures var d := Run(c, words, outcomes);
            !d.stop && !d.outside && d.panics == c.panics && d.sp == c.sp && d.stack == c.stack
  {
    var n := c.regs[MC];
    PassTaken(n + 1, m);
    assert TurnsLeft(c, start, m) == (n + 1) * (m + 1);
    if |outcomes| < (n + 1) * (m + 1) {
      InBlockUntilLastTurn(c, words, start, m, outcomes);
    } else {
      var last := |outcomes| - 1;
      InBlockUntilLastTurn(c, words, start, m, outcomes[..last]);
      TurnInBlock(Run(c, words, outcomes[..last]), words, start, m, outcomes[last]);
    }
  }

  /** A turn panics exactly when it stops the core, so there is at most one panic in a run. */
  lemma ExecPanics(c: State, i: Instr, flags: Flags)
    requires !c.stop
    ensures var d := Exec(c, i, flags);
            if d.stop then |d.panics| == |c.panics| + 1 else d.panics == c.panics
  {
  }

  lemma {:induction false} PanicStops(c: State, words: seq<qword>, outcomes: seq<Flags>)
    requires c.panics == [] && !c.stop
    ensures var d := Run(c, words, outcomes);
            if d.stop then |d.panics| == 1 else d.panics == []
    decreases |outcomes|
  {
    if outcomes != [] {
      var last := |outcomes| - 1;
      PanicStops(c, words, outcomes[..last]);
      var d := Run(c, words, outcomes[..last]);
      if !d.stop && !d.outside && Fetch(words, PAGE_WORDS, d.pc).Some? {
        StepExecutes(d, words, outcomes[last]);
        ExecPanics(Advanced(d), Fetched(words, d.pc), outcomes[last]);
      }
    }
  }
}
