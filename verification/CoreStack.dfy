/** The operand stack of a core (merry/merry_core.c:1477-1549, merry/core/merry_core.h:43-46): sp wraps
    to the largest word when the stack is empty, yet the slots below it are a plain bounded sequence. */
module CoreStack {
  import opened Words
  import opened Core

  /** sp is inside the stack memory, or is the wrapped value of the empty stack. */
  predicate InStack(c: State) {
    c.sp <= STACK_LIMIT || c.sp == TWO64 - 1
  }

  function Abs(c: State): (s: seq<qword>)
    requires InStack(c)
    ensures |s| == Depth(c) <= STACK_LIMIT + 1
    ensures s == [] <==> c.sp == TWO64 - 1
  {
    c.stack[..Depth(c)]
  }

  // The specification, on registers and a sequence whose last value is the top

  datatype Spec = Spec(regs: seq<qword>, values: seq<qword>)
  datatype Outcome = Done(spec: Spec) | Failed(error: nat)

  const CAPACITY: nat := STACK_LIMIT + 1

  /** push needs a free slot, pusha more than 16 free slots unless the stack is empty, pop a value,
      popa 16 values, of which it takes only the upper 15. */
  function Specified(s: Spec, i: Instr): Outcome
    requires |s.regs| == REGISTERS && StackOp(i)
  {
    var n := |s.values|;
    match i
    case PushImm(imm) => if n < CAPACITY then Done(s.(values := s.values + [imm])) else Failed(STACK_OVERFLOW)
    case PushReg(src) => if n < CAPACITY then Done(s.(values := s.values + [s.regs[src]])) else Failed(STACK_OVERFLOW)
    case PopReg(dst) =>
      if n > 0 then Done(Spec(s.regs[dst := s.values[n - 1]], s.values[..n - 1])) else Failed(STACK_UNDERFLOW)
    case PushAll =>
      if n == 0 || n + REGISTERS < CAPACITY then Done(s.(values := s.values + s.regs)) else Failed(STACK_OVERFLOW)
    case PopAll =>
      if n >= REGISTERS then Done(Spec([s.regs[0]] + s.values[n - 15..], s.values[..n - 15]))
      else Failed(STACK_UNDERFLOW)
  }

  function View(c: State): (s: Spec)
    requires InStack(c)
    ensures |s.regs| == REGISTERS
  {
    Spec(c.regs, Abs(c))
  }

  /** d is what the specification makes of c: the same view, or the error and nothing else. */
  predicate Follows(c: State, d: State, o: Outcome)
    requires InStack(c)
  {
    && InStack(d) && !d.outside && d.pc == c.pc
    && match o
       case Done(t) => View(d) == t && d.stop == c.stop && d.panics == c.panics
       case Failed(e) => View(d) == View(c) && d.stop && d.panics == c.panics + [e]
  }

  lemma PushFollows(c: State, v: qword)
    requires InStack(c) && !c.outside
    ensures Follows(c, Push(c, v), Specified(View(c), PushImm(v)))
  {
    if c.sp != STACK_LIMIT {
      assert Abs(Push(c, v)) == Abs(c) + [v];
    }
  }

  lemma PopFollows(c: State, dst: Reg)
    requires InStack(c) && !c.outside
    ensures Follows(c, Pop(c, dst), Specified(View(c), PopReg(dst)))
  {
    if c.sp != TWO64 - 1 {
      assert Abs(Pop(c, dst)) == Abs(c)[..Depth(c) - 1];
    }
  }

  /** pusha stores the registers one by one above the top. */
  lemma PushAllFollows(c: State)
    requires InStack(c) && !c.outside
    ensures Follows(c, PushRegisters(c), Specified(View(c), PushAll))
  {
    var n := Depth(c);
    if n == 0 || n + REGISTERS < CAPACITY {
      var d := PushRegisters(c);
      assert Depth(d) == n + REGISTERS;
      assert Abs(d) == Abs(c) + c.regs;
    }
  }

  lemma PopAllFollows(c: State)
    requires InStack(c) && !c.outside && c.sp != TWO64 - 1
    ensures Follows(c, PopRegisters(c), Specified(View(c), PopAll))
  {
    if c.sp >= 15 {
      var n, d := Depth(c), PopRegisters(c);
      assert n == c.sp + 1 && d.sp == n - 16;
      LowerPart(c.stack, n - 15, n);
      assert d.regs == [c.regs[0]] + c.stack[n - 15..n];
      assert Depth(d) == n - 15;
    }
  }

  lemma LowerPart(s: seq<qword>, i: nat, n: nat)
    requires i <= n <= |s|
    ensures s[..n][..i] == s[..i] && s[..n][i..] == s[i..n]
  {
  }

  /** One stack instruction refines the specification; popa is kept off the empty stack. */
  lemma StackStep(c: State, i: Instr, flags: Flags)
    requires InStack(c) && !c.outside && StackOp(i)
    requires i.PopAll? ==> c.sp != TWO64 - 1
    ensures Follows(c, Exec(c, i, flags), Specified(View(c), i))
  {
    match i
    case PushImm(imm) => PushFollows(c, imm);
    case PushReg(src) => PushFollows(c, c.regs[src]);
    case PopReg(dst) => PopFollows(c, dst);
    case PushAll => PushAllFollows(c);
    case PopAll => PopAllFollows(c);
  }

  // Runs

  function ExecAll(c: State, ops: seq<Instr>, outcomes: seq<Flags>): State
    requires |ops| <= |outcomes|
    decreases |ops|
  {
    if ops == [] || c.stop || c.outside then c
    else ExecAll(Exec(c, ops[0], outcomes[0]), ops[1..], outcomes[1..])
  }

  /** The specification stops at the first operation that it refuses, and keeps its error. */
  datatype Finish = Finish(spec: Spec, error: seq<nat>)

  function SpecifiedAll(s: Spec, ops: seq<Instr>): Finish
    requires |s.regs| == REGISTERS && forall i <- ops :: StackOp(i)
    decreases |ops|
  {
    if ops == [] then Finish(s, [])
    else
      match Specified(s, ops[0])
      case Done(t) => assert |t.regs| == REGISTERS; SpecifiedAll(t, ops[1..])
      case Failed(e) => Finish(s, [e])
  }

  /** popa is never reached on an empty stack. */
  predicate PopAllGuarded(s: Spec, ops: seq<Instr>)
    requires |s.regs| == REGISTERS && forall i <- ops :: StackOp(i)
    decreases |ops|
  {
    if ops == [] then true
    else
      && (ops[0].PopAll? ==> s.values != [])
      && match Specified(s, ops[0])
         case Done(t) => assert |t.regs| == REGISTERS; PopAllGuarded(t, ops[1..])
         case Failed(_) => true
  }

  /** Any run of stack instructions does to the registers and the stack what the specification does to
      its sequence, errors included; the depth is sp + 1 modulo 2^64 and never passes the capacity. */
  lemma {:induction false} StackRun(c: State, ops: seq<Instr>, outcomes: seq<Flags>)
    requires InStack(c) && !c.outside && !c.stop && c.panics == []
    requires |ops| <= |outcomes| && (forall i <- ops :: StackOp(i)) && PopAllGuarded(View(c), ops)
    ensures var d := ExecAll(c, ops, outcomes);
            && InStack(d) && !d.outside && d.pc == c.pc
            && Finish(View(d), d.panics) == SpecifiedAll(View(c), ops)
    ensures |SpecifiedAll(View(c), ops).spec.values| <= CAPACITY
    ensures ExecAll(c, ops, outcomes).stop <==> SpecifiedAll(View(c), ops).error != []
    decreases |ops|
  {
    if ops != [] {
      StackStep(c, ops[0], outcomes[0]);
      var d := Exec(c, ops[0], outcomes[0]);
      if Specified(View(c), ops[0]).Done? {
        StackRun(d, ops[1..], outcomes[1..]);
      } else {
        assert d.stop && d.panics == [Specified(View(c), ops[0]).error];
      }
    }
  }

  // What popa leaves out

  lemma Restore(c: State, n: nat, regs: seq<qword>, f1: Flags, f2: Flags)
    requires n + REGISTERS <= CAPACITY && |regs| == REGISTERS
    requires !c.outside && !c.stop && c.sp == n + 15 && c.stack[n..n + 16] == regs
    ensures var d := Exec(Exec(c, PopAll, f1), PopReg(MA), f2);
            d.regs == regs && d.sp == Wrap(n as int - 1) && !d.stop && !d.outside
  {
    var most := PopRegisters(c);
    assert most == Exec(c, PopAll, f1);
    assert c.stack[n + 1..n + 16] == regs[1..];
    assert most.regs == [c.regs[0]] + regs[1..] && most.sp == n;
    assert most.stack[n] == c.stack[n..n + 16][0];
    assert Pop(most, MA) == Exec(most, PopReg(MA), f2);
  }

  lemma Save(c: State, f: Flags)
    requires InStack(c) && (Depth(c) == 0 || Depth(c) + REGISTERS < CAPACITY)
    ensures var saved := Exec(c, PushAll, f);
            saved.sp == Depth(c) + 15 && saved.stack[Depth(c)..Depth(c) + REGISTERS] == c.regs
  {
    assert Exec(c, PushAll, f) == PushRegisters(c);
  }

  /** pusha, then any code that ends with the 16 slots and sp as pusha left them, then popa, then a
      pop into Ma: all 16 registers and sp are those from before pusha. */
  lemma SaveAndRestore(c: State, later: State, f1: Flags, f2: Flags, f3: Flags)
    requires InStack(c) && !c.outside && !c.stop
    requires Depth(c) == 0 || Depth(c) + REGISTERS < CAPACITY
    requires var saved := Exec(c, PushAll, f1);
             && later.sp == saved.sp && !later.outside && !later.stop
             && later.stack[Depth(c)..Depth(c) + REGISTERS] == saved.stack[Depth(c)..Depth(c) + REGISTERS]
    ensures var d := Exec(Exec(later, PopAll, f2), PopReg(MA), f3);
            d.regs == c.regs && d.sp == c.sp && !d.stop && !d.outside
  {
    Save(c, f1);
    Restore(later, Depth(c), c.regs, f2, f3);
    WrapUndone(c.sp, 1);
  }

  /** Without that pop, popa right after pusha leaves one value too many. */
  lemma PopAllIsNotInverse(c: State, f1: Flags, f2: Flags)
    requires InStack(c) && !c.outside && !c.stop
    requires Depth(c) == 0 || Depth(c) + REGISTERS < CAPACITY
    ensures var d := Exec(Exec(c, PushAll, f1), PopAll, f2);
            !d.outside && InStack(d) && Abs(d) == Abs(c) + [c.regs[0]] && d.regs == c.regs
  {
    PushAllFollows(c);
    var saved := PushRegisters(c);
    PopAllFollows(saved);
    assert Abs(saved) == Abs(c) + c.regs;
    assert [c.regs[0]] + c.regs[1..] == c.regs;
  }

  /** The guard of popa takes the empty stack for one with 16 values, because sp wraps: no error is
      raised, and the reads lie outside the stack memory. */
  lemma PopAllOnEmpty(c: State, flags: Flags)
    requires !c.outside && !c.stop && InStack(c) && Depth(c) < REGISTERS
    ensures Exec(c, PopAll, flags).outside <==> Abs(c) == []
    ensures Exec(c, PopAll, flags).stop <==> Abs(c) != []
  {
  }
}
