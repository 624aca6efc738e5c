/** The core as merry/merry_core.c keeps it: registers and stack memory in arrays, changed in place by the
    interpreter loop. Every method is specified by the functions of module Core. */
module CoreMachine {
  import opened Wrappers
  import opened Words
  import opened InstructionMemory
  import opened Core

  /** The stack memory when `i` registers have been stored above depth d. */
  function Stored(was: seq<qword>, regs: seq<qword>, d: nat, i: nat): (s: seq<qword>)
    requires i <= |regs| && d + |regs| <= |was|
    ensures |s| == |was|
  {
    was[..d] + regs[..i] + was[d + i..]
  }

  lemma StoreNext(was: seq<qword>, regs: seq<qword>, d: nat, i: nat)
    requires i < |regs| && d + |regs| <= |was|
    ensures Stored(was, regs, d, i + 1) == Stored(was, regs, d, i)[d + i := regs[i]]
  {
  }

  /** The registers when those above `i` have been loaded from the slots up to `top`. */
  function Loaded(was: seq<qword>, stack: seq<qword>, top: nat, i: nat): (s: seq<qword>)
    requires |was| == REGISTERS && i <= REGISTERS - 1 <= top < |stack|
    ensures |s| == |was|
  {
    was[..i + 1] + stack[top + i - 14..top + 1]
  }

  lemma LoadNext(was: seq<qword>, stack: seq<qword>, top: nat, i: nat)
    requires |was| == REGISTERS && 0 < i <= REGISTERS - 1 <= top < |stack|
    ensures Loaded(was, stack, top, i - 1) == Loaded(was, stack, top, i)[i := stack[top + i - 15]]
  {
  }

  lemma StoreNone(was: seq<qword>, regs: seq<qword>, d: nat)
    requires d + |regs| <= |was|
    ensures Stored(was, regs, d, 0) == was
  {
  }

  predicate IsTransfer(i: Instr) {
    i.MoveImm? || i.MoveReg? || i.BitReg? || i.Not? || i.Inc? || i.Dec? || i.Lea?
  }

  predicate Combines(i: Instr) {
    i.ArithImm? || i.ArithReg? || i.Exchange? || i.CmpReg?
  }

  predicate Operates(i: Instr) {
    IsTransfer(i) || StackOp(i) || Combines(i)
  }

  class MerryCore {
    const registers: array<qword>
    const stackMem: array<qword>
    const instMem: InstMemory
    var sp: qword
    var pc: qword
    var flags: Flags
    var greater: bool
    var stopRunning: bool
    /** The errors sent to the request handler. */
    var panics: seq<nat>
    /** An instruction was met that the model does not cover. */
    var outside: bool

    ghost predicate Valid()
      reads this, instMem, instMem.pages
    {
      && registers.Length == REGISTERS && stackMem.Length == STACK_LIMIT + 1
      && registers != stackMem && registers !in instMem.pages && stackMem !in instMem.pages
      && instMem.Valid() && instMem.size == PAGE_WORDS
    }

    ghost function View(): (s: State)
      requires Valid()
      reads this, registers, stackMem, instMem, instMem.pages
    {
      Cpu(registers[..], sp, pc, stackMem[..], flags, greater, stopRunning, panics, outside)
    }

    /** merry_core_init. The flags and `greater` are not initialised. */
    constructor (instMem: InstMemory, flags: Flags, greater: bool)
      requires instMem.Valid() && instMem.size == PAGE_WORDS
      ensures Valid() && fresh(registers) && fresh(stackMem) && this.instMem == instMem
      ensures View() == Init(stackMem[..], flags, greater)
      ensures pc == 0 && sp == TWO64 - 1 && !stopRunning && panics == []
      ensures forall r: Reg :: registers[r] == 0
    {
      registers := new qword[REGISTERS](_ => 0);
      stackMem := new qword[STACK_LIMIT + 1];
      this.instMem := instMem;
      pc, sp := 0, TWO64 - 1;
      this.flags, this.greater := flags, greater;
      stopRunning, panics, outside := false, [], false;
      new;
      assert registers[..] == seq(REGISTERS, _ => 0);
    }

    method Panic(error: nat)
      requires Valid()
      modifies this`stopRunning, this`panics
      ensures Valid() && View() == Fail(old(View()), error)
    {
      panics := panics + [error];
      stopRunning := true;
    }

    method SetRegister(r: Reg, v: qword)
      requires Valid()
      modifies registers
      ensures Valid() && View() == SetReg(old(View()), r, v)
    {
      registers[r] := v;
    }

    method Arithmetic(op: Alu, dst: Reg, operand: qword, after: Flags)
      requires Valid()
      modifies this`flags, this`stopRunning, this`panics, registers
      ensures Valid() && View() == Core.Arith(old(View()), op, dst, operand, after)
    {
      if (op.Div? || op.Mod?) && operand == 0 {
        Panic(DIV_BY_ZERO);
        return;
      }
      SetRegister(dst, Compute(op, registers[dst], operand));
      flags := after;
    }

    /** `core->sp++` and the store behind it. */
    method PushSlot(v: qword)
      requires Valid() && Wrap(sp as int + 1) <= STACK_LIMIT
      modifies this`sp, stackMem
      ensures Valid() && sp == Wrap(old(sp) as int + 1)
      ensures stackMem[..] == old(stackMem[..])[sp := v]
    {
      sp := Wrap(sp as int + 1);
      stackMem[sp] := v;
    }

    method PushValue(v: qword)
      requires Valid()
      modifies this`sp, this`stopRunning, this`panics, this`outside, stackMem
      ensures Valid() && View() == Core.Push(old(View()), v)
    {
      if sp == STACK_LIMIT {
        Panic(STACK_OVERFLOW);
        return;
      }
      if Wrap(sp as int + 1) > STACK_LIMIT {
        outside := true;
        return;
      }
      PushSlot(v);
    }

    method PopValue(dst: Reg)
      requires Valid()
      modifies this`sp, this`stopRunning, this`panics, this`outside, registers
      ensures Valid() && View() == Core.Pop(old(View()), dst)
    {
      if sp == TWO64 - 1 {
        Panic(STACK_UNDERFLOW);
        return;
      }
      if sp > STACK_LIMIT {
        outside := true;
        return;
      }
      SetRegister(dst, stackMem[sp]);
      sp := Wrap(sp as int - 1);
    }

    method StoreRegisters(ghost d: nat)
      requires Valid() && Wrap(sp as int + 1) == d && d + REGISTERS <= STACK_LIMIT + 1
      modifies this`sp, stackMem
      ensures Valid() && sp == d + REGISTERS - 1
      ensures stackMem[..] == Stored(old(stackMem[..]), registers[..], d, REGISTERS)
    {
      ghost var was, regs := stackMem[..], registers[..];
      StoreNone(was, regs, d);
      for i := 0 to REGISTERS
        invariant Valid() && registers[..] == regs
        invariant Wrap(sp as int + 1) == d + i && (i > 0 ==> sp == d + i - 1)
        invariant stackMem[..] == Stored(was, regs, d, i)
      {
        StoreNext(was, regs, d, i);
        WrapSmall(d + i + 1);
        PushSlot(registers[i]);
      }
    }

    method PushAll()
      requires Valid()
      modifies this`sp, this`stopRunning, this`panics, this`outside, stackMem
      ensures Valid() && View() == PushRegisters(old(View()))
    {
      if sp != TWO64 - 1 && Wrap(STACK_LIMIT - sp as int) <= REGISTERS {
        Panic(STACK_OVERFLOW);
        return;
      }
      if Wrap(sp as int + 1) + REGISTERS > STACK_LIMIT + 1 {
        outside := true;
        return;
      }
      StoreRegisters(Depth(View()));
      assert registers[..REGISTERS] == registers[..];
    }

    /** Registers 15 down to 1. */
    method LoadRegisters()
      requires Valid() && REGISTERS - 1 <= sp <= STACK_LIMIT
      modifies this`sp, registers
      ensures Valid() && sp == old(sp) - 15
      ensures registers[..] == Loaded(old(registers[..]), stackMem[..], old(sp), 0)
    {
      ghost var was, top := registers[..], sp;
      var i := REGISTERS - 1;
      while i != 0
        invariant 0 <= i <= REGISTERS - 1
        invariant Valid() && sp == top + i - 15
        invariant registers[..] == Loaded(was, stackMem[..], top, i)
      {
        LoadNext(was, stackMem[..], top, i);
        registers[i] := stackMem[sp];
        sp := Wrap(sp as int - 1);
        i := i - 1;
      }
    }

    method PopAll()
      requires Valid()
      modifies this`sp, this`stopRunning, this`panics, this`outside, registers
      ensures Valid() && View() == PopRegisters(old(View()))
    {
      if sp < REGISTERS - 1 {
        Panic(STACK_UNDERFLOW);
        return;
      }
      if sp > STACK_LIMIT {
        outside := true;
        return;
      }
      LoadRegisters();
    }

    method ClearFlag(clear: Clear)
      requires Valid()
      modifies this`flags, this`greater
      ensures Valid() && View() == Exec(old(View()), ClearFlags(clear), flags)
    {
      flags := Cleared(flags, clear);
      greater := greater && !clear.ClearAll?;
    }

    method ResetRegisters()
      requires Valid()
      modifies registers
      ensures Valid() && View() == Exec(old(View()), Reset, flags)
    {
      for i := 0 to REGISTERS
        invariant forall k :: 0 <= k < i ==> registers[k] == 0
      {
        registers[i] := 0;
      }
      assert registers[..] == seq(REGISTERS, _ => 0);
    }

    method ExchangeRegisters(dst: Reg, src: Reg)
      requires Valid()
      modifies registers
      ensures Valid() && View() == Exec(old(View()), Exchange(dst, src), flags)
    {
      var temp := registers[dst];
      SetRegister(dst, registers[src]);
      SetRegister(src, temp);
    }

    method LoopBack(target: qword)
      requires Valid()
      modifies this`pc, registers
      ensures Valid() && View() == Exec(old(View()), Loop(target), flags)
    {
      if registers[MC] != 0 {
        pc := target;
        SetRegister(MC, registers[MC] - 1);
      }
    }

    /** The instructions that only compute a new value for one register. */
    method Transfer(i: Instr)
      requires Valid()
      requires IsTransfer(i)
      modifies registers
      ensures Valid() && View() == Exec(old(View()), i, flags)
    {
      match i
      case MoveImm(dst, imm) => SetRegister(dst, imm);
      case MoveReg(dst, src) => SetRegister(dst, registers[src]);
      case BitReg(bit, dst, src) => SetRegister(dst, Bitwise(bit, registers[dst], registers[src]));
      case Not(dst) => SetRegister(dst, TWO64 - 1 - registers[dst]);
      case Inc(dst) => SetRegister(dst, Wrap(registers[dst] as int + 1));
      case Dec(dst) => SetRegister(dst, Wrap(registers[dst] as int - 1));
      case Lea(dst, base, index, scale) =>
        SetRegister(dst, Wrap(registers[base] as int + registers[index] as int * registers[scale] as int));
    }

    method StackAccess(i: Instr)
      requires Valid() && StackOp(i)
      modifies this`sp, this`stopRunning, this`panics, this`outside, registers, stackMem
      ensures Valid() && View() == Exec(old(View()), i, flags)
    {
      match i
      case PushImm(imm) => PushValue(imm);
      case PushReg(src) => PushValue(registers[src]);
      case PopReg(dst) => PopValue(dst);
      case PushAll => PushAll();
      case PopAll => PopAll();
    }

    /** The instructions that combine two registers or compare them. */
    method Combine(i: Instr, after: Flags)
      requires Valid() && Combines(i)
      modifies this`flags, this`greater, this`stopRunning, this`panics, registers
      ensures Valid() && View() == Exec(old(View()), i, after)
    {
      match i
      case ArithImm(op, dst, imm) => Arithmetic(op, dst, imm, after);
      case ArithReg(op, dst, src) => Arithmetic(op, dst, registers[src], after);
      case Exchange(dst, src) => ExchangeRegisters(dst, src);
      case CmpReg(dst, src) =>
        flags := after;
        greater := greater || registers[dst] > registers[src];
    }

    /** The instructions that set the program counter, and those that do nothing here. */
    method Branch(i: Instr)
      requires Valid() && (i.Nop? || i.JmpOff? || i.JmpAddr? || i.Loop? || i.Other?)
      modifies this`pc, this`outside, registers
      ensures Valid() && View() == Exec(old(View()), i, flags)
    {
      match i
      case Nop =>
      case JmpOff(off) => pc := Wrap(pc as int + off as int);
      case JmpAddr(target) => pc := target;
      case Loop(target) => LoopBack(target);
      case Other => outside := true;
    }

    /** The instructions that work on registers and operand stack. */
    method Operate(i: Instr, after: Flags)
      requires Valid() && Operates(i)
      modifies this`sp, this`flags, this`greater, this`stopRunning, this`panics, this`outside, registers, stackMem
      ensures Valid() && View() == Exec(old(View()), i, after)
    {
      if IsTransfer(i) {
        Transfer(i);
      } else if StackOp(i) {
        StackAccess(i);
      } else {
        Combine(i, after);
      }
    }

    /** The switch of the interpreter loop. `after` is what the host flags happen to be. */
    method Execute(i: Instr, after: Flags)
      requires Valid()
      modifies this, registers, stackMem
      ensures Valid() && View() == Exec(old(View()), i, after)
    {
      if Operates(i) {
        Operate(i, after);
      } else if i.ClearFlags? {
        ClearFlag(i.clear);
      } else if i.Reset? {
        ResetRegisters();
      } else {
        Branch(i);
      }
    }

    /** One turn of the loop in merry_runCore: fetch, advance pc, execute. */
    method Turn(after: Flags)
      requires Valid()
      modifies this, registers, stackMem, instMem`error
      ensures Valid() && instMem.words == old(instMem.words)
      ensures View() == Step(old(View()), instMem.words, after)
    {
      if stopRunning || outside {
        return;
      }
      var word := instMem.Read(pc);
      if word.None? {
        Panic(instMem.error);
        return;
      }
      StepExecutes(View(), instMem.words, after);
      pc := Wrap(pc as int + 1);
      assert View() == Advanced(old(View()));
      Execute(Decode(word.value), after);
    }

    /** The loop itself, for as many turns as there are flag outcomes. */
    method RunCore(outcomes: seq<Flags>)
      requires Valid()
      modifies this, registers, stackMem, instMem`error
      ensures Valid() && instMem.words == old(instMem.words)
      ensures View() == Run(old(View()), instMem.words, outcomes)
    {
      for k := 0 to |outcomes|
        invariant Valid() && instMem.words == old(instMem.words)
        invariant View() == Run(old(View()), instMem.words, outcomes[..k])
      {
        Turn(outcomes[k]);
        assert outcomes[..k + 1][..k] == outcomes[..k];
      }
      assert outcomes[..|outcomes|] == outcomes;
    }
  }
}
