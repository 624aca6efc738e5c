/** CALL and RET (merry/merry_core.c:250-271), looking at pc and the return-address stack only. What other
    instructions do to pc is an input; the frame that CALL keeps on the operand stack is not modelled. */
module CallReturn {
  import opened Wrappers
  import opened Words
  import GrowingStack

  const CALL_DEPTH_REACHED: nat := 56
  const INVALID_RETURN: nat := 57
  const MAX_DEPTH: nat := 50

  datatype Control = Control(pc: qword, ras: GrowingStack.Stack, error: nat)

  /** The stack a core starts with: 30 slots, growing by 10, at most 50. */
  function Start(pc: qword): Control {
    Control(pc, GrowingStack.New(30, true, MAX_DEPTH, 10), 0)
  }

  /** An executed instruction: a CALL with its target, a RET, or any other with the pc it leaves. */
  datatype Event = Call(target: qword) | Ret | Other(next: qword)

  /** pc has already advanced when CALL saves it. A core with an error has left its loop. */
  function Turn(m: Control, e: Event): Control {
    if m.error != 0 then m
    else
      match e
      case Call(target) =>
        var (ok, ras) := GrowingStack.Push(m.ras, Wrap(m.pc as int + 1));
        if ok then Control(target, ras, 0) else Control(Wrap(m.pc as int + 1), ras, CALL_DEPTH_REACHED)
      case Ret =>
        var (r, ras) := GrowingStack.Pop(m.ras);
        if r.Some? then Control(r.value, ras, 0) else Control(Wrap(m.pc as int + 1), ras, INVALID_RETURN)
      case Other(next) => m.(pc := next)
  }

  function Run(m: Control, events: seq<Event>): Control
    decreases |events|
  {
    if events == [] then m else Run(Turn(m, events[0]), events[1..])
  }

  /** What every reachable control state satisfies: 30, 40 or 50 slots, and at most as many addresses. */
  predicate Valid(m: Control) {
    && GrowingStack.Sized(m.ras) && m.ras.dynamic && m.ras.limit == MAX_DEPTH && m.ras.growth == 10
    && (m.ras.size == 30 || m.ras.size == 40 || m.ras.size == MAX_DEPTH)
  }

  function Depth(m: Control): nat {
    |m.ras.entries|
  }

  lemma StartValid(pc: qword)
    ensures Valid(Start(pc)) && Depth(Start(pc)) == 0
  {
  }

  /** A CALL is refused exactly at depth 50, a RET exactly at depth 0. */
  lemma TurnValid(m: Control, e: Event)
    requires Valid(m) && m.error == 0
    ensures Valid(Turn(m, e))
    ensures var t := Turn(m, e);
            match e
            case Call(target) =>
              if Depth(m) < MAX_DEPTH
                then t.error == 0 && t.pc == target && t.ras.entries == m.ras.entries + [Wrap(m.pc as int + 1)]
                else t.error == CALL_DEPTH_REACHED && t.ras.entries == m.ras.entries
            case Ret =>
              if Depth(m) > 0
                then t.error == 0 && m.ras.entries == t.ras.entries + [t.pc]
                else t.error == INVALID_RETURN && t.ras.entries == []
            case Other(next) => t == m.(pc := next)
  {
  }

  lemma {:induction false} RunSplits(m: Control, first: seq<Event>, second: seq<Event>)
    ensures Run(m, first + second) == Run(Run(m, first), second)
    decreases |first|
  {
    if first == [] {
      assert first + second == second;
    } else {
      assert (first + second)[1..] == first[1..] + second;
      RunSplits(Turn(m, first[0]), first[1..], second);
    }
  }

  lemma RunFirst(m: Control, e: Event, rest: seq<Event>)
    ensures Run(m, [e] + rest) == Run(Turn(m, e), rest)
  {
    assert ([e] + rest)[1..] == rest;
  }

  lemma RunLast(m: Control, events: seq<Event>, e: Event)
    ensures Run(m, events + [e]) == Turn(Run(m, events), e)
  {
    RunSplits(m, events, [e]);
    RunFirst(Run(m, events), e, []);
  }

  // Which runs meet no error

  /** The calls not yet returned from, or on which side of 0..50 their number would first leave it. */
  datatype Level = Level(open: int) | Below | Above

  function LevelAfter(open: nat, events: seq<Event>): Level
    requires open <= MAX_DEPTH
    decreases |events|
  {
    if events == [] then Level(open)
    else
      match events[0]
      case Call(_) => if open == MAX_DEPTH then Above else LevelAfter(open + 1, events[1..])
      case Ret => if open == 0 then Below else LevelAfter(open - 1, events[1..])
      case Other(_) => LevelAfter(open, events[1..])
  }

  /** Counting calls and returns decides, for any run, whether and with which error it stops: a RET
      without an open call, or a CALL that would be the 51st open one, whichever comes first. */
  lemma {:induction false} ErrorIff(m: Control, events: seq<Event>)
    requires Valid(m) && m.error == 0
    ensures Valid(Run(m, events))
    ensures var t := Run(m, events);
            match LevelAfter(Depth(m), events)
            case Level(open) => t.error == 0 && Depth(t) == open
            case Below => t.error == INVALID_RETURN
            case Above => t.error == CALL_DEPTH_REACHED
    decreases |events|
  {
    if events != [] {
      TurnValid(m, events[0]);
      var t := Turn(m, events[0]);
      if t.error == 0 {
        ErrorIff(t, events[1..]);
      } else {
        StoppedStays(t, events[1..]);
      }
    }
  }

  lemma {:induction false} StoppedStays(m: Control, events: seq<Event>)
    requires m.error != 0
    ensures Run(m, events) == m
    decreases |events|
  {
    if events != [] {
      StoppedStays(m, events[1..]);
    }
  }

  // Well-nested code

  /** The shape of code whose calls all return: other instructions, and calls around a body. */
  datatype Nest = Done | Plain(next: qword, rest: Nest) | Sub(target: qword, body: Nest, rest: Nest)

  function Events(n: Nest): seq<Event>
    decreases n, 0
  {
    match n
    case Done => []
    case Plain(next, rest) => [Other(next)] + Events(rest)
    case Sub(target, body, rest) => Procedure(target, body) + Events(rest)
  }

  /** A CALL, a body and the RET that matches. */
  function Procedure(target: qword, body: Nest): seq<Event>
    decreases body, 1
  {
    [Call(target)] + (Events(body) + [Ret])
  }

  /** How deep the calls are nested. */
  function Nesting(n: Nest): nat {
    match n
    case Done => 0
    case Plain(_, rest) => Nesting(rest)
    case Sub(_, body, rest) =>
      if Nesting(body) + 1 > Nesting(rest) then Nesting(body) + 1 else Nesting(rest)
  }

  /** Well-nested code leaves the return addresses as it found them, provided it fits. */
  lemma {:induction false} NestKeepsAddresses(m: Control, n: Nest)
    requires Valid(m) && m.error == 0 && Depth(m) + Nesting(n) <= MAX_DEPTH
    ensures var t := Run(m, Events(n)); Valid(t) && t.error == 0 && t.ras.entries == m.ras.entries
    decreases n, 0
  {
    match n
    case Done =>
    case Plain(next, rest) =>
      NestKeepsAddresses(Turn(m, Other(next)), rest);
    case Sub(target, body, rest) =>
      ReturnsBehindCall(m, target, body);
      RunSplits(m, Procedure(target, body), Events(rest));
      NestKeepsAddresses(Run(m, Procedure(target, body)), rest);
  }

  /** A CALL, well-nested code and a RET resume right after that CALL. */
  lemma {:induction false} ReturnsBehindCall(m: Control, target: qword, body: Nest)
    requires Valid(m) && m.error == 0 && Depth(m) + Nesting(body) < MAX_DEPTH
    ensures var t := Run(m, Procedure(target, body));
            && Valid(t) && t.error == 0 && t.ras.entries == m.ras.entries
            && t.pc == Wrap(m.pc as int + 1)
    decreases body, 1
  {
    var called := Turn(m, Call(target));
    TurnValid(m, Call(target));
    NestKeepsAddresses(called, body);
    TurnValid(Run(called, Events(body)), Ret);
    RunLast(called, Events(body), Ret);
    RunFirst(m, Call(target), Events(body) + [Ret]);
  }

  lemma {:induction false} NestLevel(open: nat, n: Nest, rest: seq<Event>)
    requires open <= MAX_DEPTH
    ensures LevelAfter(open, Events(n) + rest) ==
            if open + Nesting(n) <= MAX_DEPTH then LevelAfter(open, rest) else Above
    decreases n
  {
    match n
    case Done =>
      assert Events(n) + rest == rest;
    case Plain(next, more) =>
      assert (Events(n) + rest)[1..] == Events(more) + rest;
      NestLevel(open, more, rest);
    case Sub(target, body, more) =>
      var after := Events(more) + rest;
      assert Events(n) == ([Call(target)] + (Events(body) + [Ret])) + Events(more);
      assert Events(n) + rest == [Call(target)] + (Events(body) + ([Ret] + after));
      if open < MAX_DEPTH {
        NestLevel(open + 1, body, [Ret] + after);
        assert ([Ret] + after)[1..] == after;
        NestLevel(open, more, rest);
      }
  }

  /** Well-nested code runs through exactly when its nesting fits on top of the open calls; otherwise
      it stops with the depth error, never with an invalid return. */
  lemma NestFitsIff(m: Control, n: Nest)
    requires Valid(m) && m.error == 0
    ensures Run(m, Events(n)).error == if Depth(m) + Nesting(n) <= MAX_DEPTH then 0 else CALL_DEPTH_REACHED
  {
    ErrorIff(m, Events(n));
    NestLevel(Depth(m), n, []);
    assert Events(n) + [] == Events(n);
  }

  function Calls(targets: seq<qword>): (events: seq<Event>)
    ensures |events| == |targets|
  {
    if targets == [] then [] else [Call(targets[0])] + Calls(targets[1..])
  }

  lemma {:induction false} CallsLevel(open: nat, targets: seq<qword>)
    requires open <= MAX_DEPTH
    ensures LevelAfter(open, Calls(targets)) ==
            if open + |targets| <= MAX_DEPTH then Level(open + |targets|) else Above
    decreases |targets|
  {
    if targets != [] {
      assert Calls(targets)[1..] == Calls(targets[1..]);
      if open < MAX_DEPTH {
        CallsLevel(open + 1, targets[1..]);
      }
    }
  }

  /** From the start, 50 nested calls are taken and precisely the 51st is refused. */
  lemma FiftyFirstCallRefused(pc: qword, targets: seq<qword>)
    ensures var t := Run(Start(pc), Calls(targets));
            t.error == (if |targets| <= MAX_DEPTH then 0 else CALL_DEPTH_REACHED)
    ensures Depth(Run(Start(pc), Calls(targets))) == if |targets| <= MAX_DEPTH then |targets| else MAX_DEPTH
  {
    StartValid(pc);
    ErrorIff(Start(pc), Calls(targets));
    CallsLevel(0, targets);
    if |targets| > MAX_DEPTH {
      CallsTaken(pc, targets);
    }
  }

  lemma {:induction false} CallsSplit(targets: seq<qword>, k: nat)
    requires k <= |targets|
    ensures Calls(targets) == Calls(targets[..k]) + Calls(targets[k..])
    decreases k
  {
    if k > 0 {
      CallsSplit(targets[1..], k - 1);
      assert targets[..k][1..] == targets[1..][..k - 1] && targets[1..][k - 1..] == targets[k..];
    } else {
      assert targets[0..] == targets;
    }
  }

  lemma CallsTaken(pc: qword, targets: seq<qword>)
    requires |targets| > MAX_DEPTH
    ensures Depth(Run(Start(pc), Calls(targets))) == MAX_DEPTH
  {
    CallsSplit(targets, MAX_DEPTH);
    RunSplits(Start(pc), Calls(targets[..MAX_DEPTH]), Calls(targets[MAX_DEPTH..]));
    StartValid(pc);
    ErrorIff(Start(pc), Calls(targets[..MAX_DEPTH]));
    CallsLevel(0, targets[..MAX_DEPTH]);
    var full := Run(Start(pc), Calls(targets[..MAX_DEPTH]));
    var next := Call(targets[MAX_DEPTH]);
    TurnValid(full, next);
    assert Calls(targets[MAX_DEPTH..])[0] == next;
    StoppedStays(Turn(full, next), Calls(targets[MAX_DEPTH..])[1..]);
  }

  // The instructions themselves

  /** The part of a core that CALL and RET work on. */
  class CallUnit {
    var pc: qword
    const ras: GrowingStack.MerryStack
    /** The error that stopped the core, or 0. */
    var error: nat

    ghost predicate Valid()
      reads this, ras, ras.data
    {
      ras.Valid() && ras.addPerResize == 10
    }

    ghost function View(): Control
      requires Valid()
      reads this, ras, ras.data
    {
      Control(pc, ras.View(), error)
    }

    constructor (startAddr: qword)
      ensures Valid() && fresh(ras) && fresh(ras.data) && View() == Start(startAddr)
    {
      ras := new GrowingStack.MerryStack(30, true, MAX_DEPTH, 10);
      pc, error := startAddr, 0;
    }

    /** OP_CALL, after pc has advanced. */
    method ExecuteCall(target: qword)
      requires Valid() && error == 0
      modifies this, ras, ras.data
      ensures Valid() && (ras.data == old(ras.data) || fresh(ras.data))
      ensures View() == Turn(old(View()), Call(target))
    {
      pc := Wrap(pc as int + 1);
      var ok := ras.PushValue(pc);
      if !ok {
        error := CALL_DEPTH_REACHED;
        return;
      }
      pc := target;
    }

    /** OP_RET, after pc has advanced. */
    method ExecuteRet()
      requires Valid() && error == 0
      modifies this, ras
      ensures Valid() && ras.data == old(ras.data)
      ensures View() == Turn(old(View()), Ret)
    {
      pc := Wrap(pc as int + 1);
      var address := ras.PopValue();
      if address.None? {
        error := INVALID_RETURN;
        return;
      }
      pc := address.value;
    }
  }
}
