/** The flags, and the mark that a comparison leaves (merry/merry_core.c:345-351, 463-478), at the end of
    runs over quiet code. */
module CoreFlags {
  import opened Words
  import opened InstructionMemory
  import opened Core
  import opened CoreRuns

  datatype Flag = Carry | Zero | Negative | Overflow

  function Get(flags: Flags, flag: Flag): bool {
    match flag
    case Carry => flags.carry
    case Zero => flags.zero
    case Negative => flags.negative
    case Overflow => flags.overflow
  }

  /** The instructions that leave the flags of the host behind. */
  predicate Sets(i: Instr) {
    i.ArithImm? || i.ArithReg? || i.CmpReg?
  }

  predicate Clears(i: Instr, flag: Flag) {
    i.ClearFlags? &&
    match i.clear
    case ClearAll => true
    case ClearCarry => flag.Carry?
    case ClearZero => flag.Zero?
    case ClearNegative => flag.Negative?
    case ClearOverflow => flag.Overflow?
  }

  lemma FlagTurn(c: State, i: Instr, f: Flags, flag: Flag)
    requires Quiet(i)
    ensures Get(Exec(c, i, f).flags, flag) ==
            if Sets(i) then Get(f, flag) else !Clears(i, flag) && Get(c.flags, flag)
  {
  }

  /** The last turn, as a step of the run. */
  lemma LastTurn(c: State, words: seq<qword>, code: seq<Instr>, outcomes: seq<Flags>)
    requires Ready(c, words, code) && AllQuiet(code) && 0 < |outcomes| <= |code|
    ensures var last := |outcomes| - 1;
            && FoldedTo(c, Run(c, words, outcomes[..last]), code, last)
            && Run(c, words, outcomes) == Exec(Advanced(Run(c, words, outcomes[..last])), code[last], outcomes[last])
  {
    var last := |outcomes| - 1;
    RunFolds(c, words, code, outcomes[..last]);
    FoldTurn(c, Run(c, words, outcomes[..last]), words, code, last, outcomes[last]);
  }

  lemma FlagLastTurn(c: State, words: seq<qword>, code: seq<Instr>, outcomes: seq<Flags>, flag: Flag)
    requires Ready(c, words, code) && AllQuiet(code) && 0 < |outcomes| <= |code|
    ensures var last := |outcomes| - 1;
            Get(Run(c, words, outcomes).flags, flag) ==
            if Sets(code[last]) then Get(outcomes[last], flag)
            else !Clears(code[last], flag) && Get(Run(c, words, outcomes[..last]).flags, flag)
  {
    var last := |outcomes| - 1;
    LastTurn(c, words, code, outcomes);
    FlagTurn(Advanced(Run(c, words, outcomes[..last])), code[last], outcomes[last], flag);
  }

  /** The instruction decides what the flag is afterwards. */
  predicate Decides(i: Instr, flag: Flag) {
    Sets(i) || Clears(i, flag)
  }

  /** After any number of turns a flag is what the last instruction that decides it has made it: the
      outcome of that turn, or unset; without any such instruction it is as it was. */
  lemma {:induction false} FlagAfterRun(c: State, words: seq<qword>, code: seq<Instr>, outcomes: seq<Flags>,
                                        flag: Flag, from: nat)
    requires Ready(c, words, code) && AllQuiet(code) && from <= |outcomes| <= |code|
    requires forall k :: from <= k < |outcomes| ==> !Decides(code[k], flag)
    requires from > 0 ==> Decides(code[from - 1], flag)
    ensures Get(Run(c, words, outcomes).flags, flag) ==
            if from == 0 then Get(c.flags, flag) else Sets(code[from - 1]) && Get(outcomes[from - 1], flag)
    decreases |outcomes|
  {
    if outcomes != [] {
      FlagLastTurn(c, words, code, outcomes, flag);
      if from < |outcomes| {
        FlagAfterRun(c, words, code, outcomes[..|outcomes| - 1], flag, from);
      }
    }
  }

  /** Instruction k of the code is a CMP that finds its first register greater. */
  predicate FindsGreater(regs: Regs, code: seq<Instr>, k: nat) {
    && k < |code| && code[k].CmpReg?
    && var now := Fold(After, regs, code[..k]);
       now[code[k].dst] > now[code[k].src]
  }

  /** A CLFLAGS stands behind instruction k, before instruction n. */
  predicate ClearedBehind(code: seq<Instr>, k: int, n: nat) {
    exists j :: 0 <= j < |code| && k < j < n && code[j] == ClearFlags(ClearAll)
  }

  lemma GreaterTurn(c: State, i: Instr, f: Flags)
    requires Quiet(i)
    ensures Exec(c, i, f).greater <==>
            i != ClearFlags(ClearAll) && (c.greater || (i.CmpReg? && c.regs[i.dst] > c.regs[i.src]))
  {
  }

  lemma ClearedNext(code: seq<Instr>, k: int, n: nat)
    requires k < n < |code|
    ensures ClearedBehind(code, k, n + 1) <==> ClearedBehind(code, k, n) || code[n] == ClearFlags(ClearAll)
  {
  }

  ghost predicate Greater(c: State, code: seq<Instr>, n: nat) {
    || (c.greater && !ClearedBehind(code, -1, n))
    || exists k :: 0 <= k < n && FindsGreater(c.regs, code, k) && !ClearedBehind(code, k, n)
  }

  lemma GreaterNext(c: State, code: seq<Instr>, n: nat)
    requires n < |code|
    ensures Greater(c, code, n + 1) <==>
            code[n] != ClearFlags(ClearAll) && (Greater(c, code, n) || FindsGreater(c.regs, code, n))
  {
    ClearedNext(code, -1, n);
    forall k | 0 <= k < n
      ensures ClearedBehind(code, k, n + 1) <==> ClearedBehind(code, k, n) || code[n] == ClearFlags(ClearAll)
    {
      ClearedNext(code, k, n);
    }
    assert !ClearedBehind(code, n, n + 1);
  }

  /** CMP never takes the mark back: it is set exactly if it was, or some CMP found its first register
      greater, and CLFLAGS has not come since. */
  lemma {:induction false} GreaterAfterRun(c: State, words: seq<qword>, code: seq<Instr>, outcomes: seq<Flags>)
    requires Ready(c, words, code) && AllQuiet(code) && |outcomes| <= |code|
    ensures Run(c, words, outcomes).greater <==> Greater(c, code, |outcomes|)
    decreases |outcomes|
  {
    if outcomes != [] {
      var last := |outcomes| - 1;
      GreaterAfterRun(c, words, code, outcomes[..last]);
      LastTurn(c, words, code, outcomes);
      GreaterTurn(Advanced(Run(c, words, outcomes[..last])), code[last], outcomes[last]);
      GreaterNext(c, code, last);
    }
  }

  /** Code without CMP and CLFLAGS leaves the mark alone. */
  lemma GreaterKept(c: State, words: seq<qword>, code: seq<Instr>, outcomes: seq<Flags>)
    requires Ready(c, words, code) && AllQuiet(code) && |outcomes| <= |code|
    requires forall k :: 0 <= k < |code| ==> !code[k].CmpReg? && !code[k].ClearFlags?
    ensures Run(c, words, outcomes).greater == c.greater
  {
    GreaterAfterRun(c, words, code, outcomes);
  }
}
