/** What a state of a run must be, told from the requests the OS is past serving and from the actions
    taken: how many cores there are, which of them were halted, what active_core_count holds, who was
    told to stop and why, and which core can still make a request. Any run, panics and overflows included. */
module RendezvousLedger {
  import opened Wrappers
  import opened RequestRing
  import opened RequestHandler
  import opened Rendezvous
  import opened RendezvousCalm
  import opened RendezvousOverflow

  /** The requests whose service has taken effect: those answered, and the one about to be. */
  function PastServing(s: State): seq<Request> {
    s.served + if s.os.Signalling? then [s.os.req] else []
  }

  function CountOf(rs: seq<Request>, number: nat): nat {
    if rs == [] then 0
    else CountOf(rs[..|rs| - 1], number) + if rs[|rs| - 1].number == number then 1 else 0
  }

  lemma CountOneMore(rs: seq<Request>, r: Request, number: nat)
    ensures CountOf(rs + [r], number) == CountOf(rs, number) + if r.number == number then 1 else 0
  {
    assert (rs + [r])[..|rs|] == rs;
  }

  /** Only error and exit requests stop the machine, and only some handlers panic. */
  predicate Handling(os: OsPhase) {
    match os
    case OsPanicLocked(r, _) => HandlerMayPanic(r.number)
    case StopCores(r, _) => IsError(r.number) || r.number == REQ_EXIT
    case KillLocked(r, _) => IsError(r.number) || r.number == REQ_EXIT
    case _ => true
  }

  lemma StepHandling(s: State, a: Action)
    requires Enabled(s, a) && Handling(s.os)
    ensures Handling(Apply(s, a).os)
  {
    if IsCoreAction(a) {
      CoreStepFrame(s, a);
    }
  }

  lemma {:induction false} RunHandling(ss: seq<State>, acts: seq<Action>, i: nat)
    requires Run(ss, acts) && i <= |acts|
    ensures Handling(ss[i].os)
  {
    if i == 0 {
      var coreCount: nat, queueLen: nat :| ss[0] == Init(coreCount, queueLen);
    } else {
      RunHandling(ss, acts, i - 1);
      StepHandling(ss[i - 1], acts[i - 1]);
    }
  }

  /** The action by which the OS gets past serving a request. */
  predicate Completes(s: State, a: Action) {
    || (a.OsServe? && s.os.Serving? && !IsError(s.os.req.number) && s.os.req.number != REQ_EXIT)
    || a.OsPanic?
    || (a.OsKill? && s.os.KillLocked? && s.os.pass >= s.hdlr.ring.count)
  }

  lemma StepPastServing(s: State, a: Action)
    requires Enabled(s, a)
    ensures PastServing(Apply(s, a)) == if Completes(s, a) then s.served + InService(s.os) else PastServing(s)
    ensures Completes(s, a) ==> |InService(s.os)| == 1 && PastServing(s) == s.served
  {
    if IsCoreAction(a) {
      CoreStepFrame(s, a);
    }
  }

  /** A run in which core 0 makes one request, the OS fetches it, and its handler panics. */
  lemma HandlerPanics(number: nat, error: nat) returns (ss: seq<State>, acts: seq<Action>)
    requires number in {154, 156, 158, 159, 160, 161, 164} && IsError(error)
    ensures RunOf(ss, acts, 1, 1)
    ensures ss[|acts|].os == OsPanicLocked(Request(number, CoreCond(0), 0), error)
  {
    ss, acts := BootAll(1, 1, 1);
    ss, acts := ToSleep(ss, acts, 1, 1, 0, number);
    ss, acts := Do(ss, acts, 1, 1, OsBoot);
    ss, acts := Do(ss, acts, 1, 1, OsLoop);
    ss, acts := Do(ss, acts, 1, 1, OsPop);
    ss, acts := Do(ss, acts, 1, 1, OsLockPanic(error));
  }

  /** In some run the OS reports an error while it serves a request of this number, exactly if it is DYNL,
      DYNCALL or one of the five file requests. */
  lemma OsReportsIff(number: nat)
    ensures number in {154, 156, 158, 159, 160, 161, 164} <==>
            exists ss: seq<State>, acts: seq<Action> :: Run(ss, acts) &&
              ss[|acts|].os.OsPanicLocked? && ss[|acts|].os.req.number == number
  {
    if number in {154, 156, 158, 159, 160, 161, 164} {
      var ss, acts := HandlerPanics(number, 0);
    }
    forall ss: seq<State>, acts: seq<Action> | Run(ss, acts) &&
      ss[|acts|].os.OsPanicLocked? && ss[|acts|].os.req.number == number
      ensures number in {154, 156, 158, 159, 160, 161, 164}
    {
      RunHandling(ss, acts, |acts|);
    }
  }

  // How many cores there are

  /** A NEWCORE request adds one core, with the next number, running and not told to stop; no other step
      changes the number of cores. */
  lemma CoresAddedByNewCore(s: State, a: Action)
    requires Basic(s) && Enabled(s, a)
    ensures if a.OsServe? && s.os.req.number == REQ_NEWCORE
              then Apply(s, a).cores == s.cores + [Core(|s.cores|, Running, false)]
              else |Apply(s, a).cores| == |s.cores|
  {
    if IsCoreAction(a) {
      CoreStepFrame(s, a);
    }
  }

  lemma StepNewCores(s: State, a: Action)
    requires Basic(s) && Handling(s.os) && Enabled(s, a)
    ensures |Apply(s, a).cores| - |s.cores| ==
            CountOf(PastServing(Apply(s, a)), REQ_NEWCORE) - CountOf(PastServing(s), REQ_NEWCORE)
  {
    CoresAddedByNewCore(s, a);
    StepPastServing(s, a);
    if Completes(s, a) {
      CountOneMore(s.served, InService(s.os)[0], REQ_NEWCORE);
    }
  }

  lemma NewCoresOfStep(ss: seq<State>, acts: seq<Action>, i: nat)
    requires Run(ss, acts) && i < |acts|
    ensures |ss[i + 1].cores| - |ss[i].cores| ==
            CountOf(PastServing(ss[i + 1]), REQ_NEWCORE) - CountOf(PastServing(ss[i]), REQ_NEWCORE)
  {
    CalmRun(ss, acts, i);
    RunHandling(ss, acts, i);
    StepNewCores(ss[i], acts[i]);
  }

  lemma NothingServedAtStart(ss: seq<State>, acts: seq<Action>)
    requires Run(ss, acts)
    ensures PastServing(ss[0]) == []
  {
    var coreCount: nat, queueLen: nat :| ss[0] == Init(coreCount, queueLen);
  }

  /** In every state of every run there are as many cores as at the start and as many more as NEWCORE
      requests the OS is past serving. */
  lemma {:induction false} CoresAreStartPlusServed(ss: seq<State>, acts: seq<Action>, i: nat)
    requires Run(ss, acts) && i <= |acts|
    ensures |ss[i].cores| == |ss[0].cores| + CountOf(PastServing(ss[i]), REQ_NEWCORE)
  {
    if i == 0 {
      NothingServedAtStart(ss, acts);
    } else {
      CoresAreStartPlusServed(ss, acts, i - 1);
      NewCoresOfStep(ss, acts, i - 1);
    }
  }

  /** Each core beyond those of the start was appended by the service of one NEWCORE request, and was
      running under its own number and not told to stop right then. */
  lemma {:induction false} AddedCoreHasItsStep(ss: seq<State>, acts: seq<Action>, i: nat, c: nat) returns (k: nat)
    requires Run(ss, acts) && i <= |acts| && |ss[0].cores| <= c < |ss[i].cores|
    ensures k < i && acts[k] == OsServe && ss[k].os.Serving? && ss[k].os.req.number == REQ_NEWCORE
    ensures |ss[k].cores| == c && ss[k + 1].cores == ss[k].cores + [Core(c, Running, false)]
  {
    CalmRun(ss, acts, i - 1);
    CoresAddedByNewCore(ss[i - 1], acts[i - 1]);
    if c < |ss[i - 1].cores| {
      k := AddedCoreHasItsStep(ss, acts, i - 1, c);
    } else {
      k := i - 1;
    }
  }

  // What the counter holds

  /** Boots counted so far: up to the boot loop's position, or all cores of the start. */
  function Booted(ss: seq<State>, i: nat): nat
    requires i < |ss|
  {
    if ss[i].os.Booting? then ss[i].os.next else |ss[0].cores|
  }

  /** active_core_count as boots, plus NEWCORE, minus HALT, before it is cut to 64 bits. */
  function Balance(ss: seq<State>, i: nat): int
    requires i < |ss|
  {
    Booted(ss, i) + CountOf(PastServing(ss[i]), REQ_NEWCORE) - CountOf(PastServing(ss[i]), REQ_HALT)
  }

  /** The change of the counter by one step, told from the request it completes, if any. */
  lemma StepActiveCount(s: State, a: Action)
    requires Basic(s) && Handling(s.os) && Enabled(s, a)
    ensures var t := Apply(s, a);
            if Completes(s, a) then
              t.active == Counted(s.active, InService(s.os)[0].number)
            else t.active == s.active + if a.OsBoot? && s.os.next < |s.cores| then 1 else 0
  {
    if IsCoreAction(a) {
      CoreStepFrame(s, a);
    }
  }

  function Counted(active: nat, number: nat): nat {
    if number == REQ_HALT then Decrement(active) else if number == REQ_NEWCORE then active + 1 else active
  }

  lemma BootedMoves(ss: seq<State>, acts: seq<Action>, i: nat)
    requires Run(ss, acts) && i < |acts| && Basic(ss[i])
    requires ss[i].os.Booting? ==> |ss[i].cores| == |ss[0].cores|
    ensures Booted(ss, i + 1) == Booted(ss, i) + if acts[i].OsBoot? && ss[i].os.next < |ss[i].cores| then 1 else 0
    ensures ss[i + 1].os.Booting? ==> |ss[i + 1].cores| == |ss[0].cores|
  {
    CoresAddedByNewCore(ss[i], acts[i]);
    if IsCoreAction(acts[i]) {
      CoreStepFrame(ss[i], acts[i]);
    }
  }

  predicate Congruent(active: nat, balance: int) {
    (active - balance) % (MAX_MSIZE + 1) == 0
  }

  lemma CongruentNext(active: nat, balance: int, active': nat, balance': int)
    requires Congruent(active, balance)
    requires active' - active == balance' - balance || (active' == Decrement(active) && balance' == balance - 1)
    ensures Congruent(active', balance')
  {
    if active' - active != balance' - balance {
      assert active' - balance' == (active - balance) + (MAX_MSIZE + 1);
    }
  }

  /** What the step adds to the balance besides boots. */
  lemma LedgerMoves(s: State, a: Action)
    requires Handling(s.os) && Enabled(s, a)
    ensures var p, q := PastServing(s), PastServing(Apply(s, a));
            var number := if Completes(s, a) then InService(s.os)[0].number else LAST_ERROR;
            && CountOf(q, REQ_NEWCORE) - CountOf(p, REQ_NEWCORE) == (if number == REQ_NEWCORE then 1 else 0)
            && CountOf(q, REQ_HALT) - CountOf(p, REQ_HALT) == (if number == REQ_HALT then 1 else 0)
  {
    StepPastServing(s, a);
    if Completes(s, a) {
      CountOneMore(s.served, InService(s.os)[0], REQ_HALT);
      CountOneMore(s.served, InService(s.os)[0], REQ_NEWCORE);
    }
  }

  lemma BalanceMoves(ss: seq<State>, acts: seq<Action>, i: nat)
    requires Run(ss, acts) && i < |acts| && Basic(ss[i]) && Handling(ss[i].os)
    requires ss[i].os.Booting? ==> |ss[i].cores| == |ss[0].cores|
    requires Congruent(ss[i].active, Balance(ss, i))
    ensures Congruent(ss[i + 1].active, Balance(ss, i + 1))
  {
    StepActiveCount(ss[i], acts[i]);
    LedgerMoves(ss[i], acts[i]);
    BootedMoves(ss, acts, i);
    CongruentNext(ss[i].active, Balance(ss, i), ss[i + 1].active, Balance(ss, i + 1));
  }

  /** In every state of every run, underflows included, active_core_count is boots plus NEWCORE requests
      served minus HALT requests served, modulo 2^64. */
  lemma {:induction false} ActiveCountBalances(ss: seq<State>, acts: seq<Action>, i: nat)
    requires Run(ss, acts) && i <= |acts|
    ensures Congruent(ss[i].active, Balance(ss, i))
    ensures ss[i].os.Booting? ==> |ss[i].cores| == |ss[0].cores|
  {
    if i == 0 {
      var coreCount: nat, queueLen: nat :| ss[0] == Init(coreCount, queueLen);
    } else {
      ActiveCountBalances(ss, acts, i - 1);
      CalmRun(ss, acts, i - 1);
      RunHandling(ss, acts, i - 1);
      BalanceMoves(ss, acts, i - 1);
      BootedMoves(ss, acts, i - 1);
    }
  }

  // Who was halted

  ghost predicate AsksToHalt(rs: seq<Request>, c: nat) {
    exists k :: 0 <= k < |rs| && rs[k].number == REQ_HALT && rs[k].id == c
  }

  lemma AsksOneMore(rs: seq<Request>, r: Request, c: nat)
    ensures AsksToHalt(rs + [r], c) <==> AsksToHalt(rs, c) || (r.number == REQ_HALT && r.id == c)
  {
    if AsksToHalt(rs, c) {
      var k :| 0 <= k < |rs| && rs[k].number == REQ_HALT && rs[k].id == c;
      assert (rs + [r])[k] == rs[k];
    }
    if r.number == REQ_HALT && r.id == c {
      assert (rs + [r])[|rs|] == r;
    }
  }

  lemma StepHalted(s: State, a: Action)
    requires Handling(s.os) && Enabled(s, a)
    ensures Apply(s, a).halted == s.halted +
              if Completes(s, a) && InService(s.os)[0].number == REQ_HALT then {InService(s.os)[0].id} else {}
  {
    StepPastServing(s, a);
    if IsCoreAction(a) {
      CoreStepFrame(s, a);
    }
  }

  /** The halted cores are exactly those a served HALT request named. */
  lemma {:induction false} HaltedAreServed(ss: seq<State>, acts: seq<Action>, i: nat, c: nat)
    requires Run(ss, acts) && i <= |acts|
    ensures c in ss[i].halted <==> AsksToHalt(PastServing(ss[i]), c)
  {
    if i == 0 {
      var coreCount: nat, queueLen: nat :| ss[0] == Init(coreCount, queueLen);
    } else {
      var s := ss[i - 1];
      HaltedAreServed(ss, acts, i - 1, c);
      RunHandling(ss, acts, i - 1);
      StepHalted(s, acts[i - 1]);
      StepPastServing(s, acts[i - 1]);
      if Completes(s, acts[i - 1]) {
        AsksOneMore(s.served, InService(s.os)[0], c);
        assert s.served + [InService(s.os)[0]] == s.served + InService(s.os);
      }
    }
  }

  // Who was told to stop, and why

  /** The steps that tell core c to stop: it returns from a HALT; its push is ignored in a HALT, or
      overflows; it reports an error; the OS serves a HALT that names it; or the OS prepares to exit. */
  predicate TellsToStop(s: State, a: Action, c: nat) {
    match a
    case CoreReturn(d) => d == c && c < |s.cores| && s.cores[c].phase == Reacquired(true)
    case CorePush(d) =>
      && d == c && c < |s.cores| && s.cores[c].phase.PushLocked?
      && (if s.hdlr.more then Full(s.hdlr.ring) else s.cores[c].phase.halting)
    case CorePanic(d) => d == c
    case OsServe => s.os.Serving? && s.os.req.number == REQ_HALT && s.os.req.id == c
    case OsStopCore => s.os.StopCores? && s.os.next == c
    case _ => false
  }

  lemma OwnStepTells(s: State, a: Action)
    requires Enabled(s, a) && IsCoreAction(a)
    ensures a.core < |s.cores| && a.core < |Apply(s, a).cores|
    ensures Apply(s, a).cores[a.core].stop <==> s.cores[a.core].stop || TellsToStop(s, a, a.core)
  {
  }

  lemma OsStepTells(s: State, a: Action, c: nat)
    requires Enabled(s, a) && !IsCoreAction(a) && c < |s.cores|
    ensures c < |Apply(s, a).cores|
    ensures Apply(s, a).cores[c].stop <==> s.cores[c].stop || TellsToStop(s, a, c)
  {
  }

  lemma StepTells(s: State, a: Action, c: nat)
    requires Enabled(s, a) && c < |s.cores|
    ensures c < |Apply(s, a).cores|
    ensures Apply(s, a).cores[c].stop <==> s.cores[c].stop || TellsToStop(s, a, c)
  {
    if IsCoreAction(a) {
      CoreStepFrame(s, a);
      OwnStepTells(s, a);
    } else {
      OsStepTells(s, a, c);
    }
  }

  lemma NewCoreNotTold(s: State, a: Action, c: nat)
    requires Basic(s) && Enabled(s, a) && |s.cores| <= c < |Apply(s, a).cores|
    ensures !Apply(s, a).cores[c].stop
  {
    CoresAddedByNewCore(s, a);
  }

  /** Some step before state i told core c, which existed then, to stop. */
  ghost predicate WasTold(ss: seq<State>, acts: seq<Action>, i: nat, c: nat)
    requires |ss| == |acts| + 1 && i <= |acts|
  {
    exists k :: 0 <= k < i && c < |ss[k].cores| && TellsToStop(ss[k], acts[k], c)
  }

  lemma WasToldNext(ss: seq<State>, acts: seq<Action>, i: nat, c: nat)
    requires |ss| == |acts| + 1 && i < |acts|
    ensures WasTold(ss, acts, i + 1, c) <==>
            WasTold(ss, acts, i, c) || (c < |ss[i].cores| && TellsToStop(ss[i], acts[i], c))
  {
  }

  /** A core has been told to stop exactly if one of these steps happened. */
  lemma {:induction false} ToldToStopIff(ss: seq<State>, acts: seq<Action>, i: nat, c: nat)
    requires Run(ss, acts) && i <= |acts| && c < |ss[i].cores|
    ensures ss[i].cores[c].stop <==> WasTold(ss, acts, i, c)
  {
    if i == 0 {
      var coreCount: nat, queueLen: nat :| ss[0] == Init(coreCount, queueLen);
    } else {
      CalmRun(ss, acts, i - 1);
      WasToldNext(ss, acts, i - 1, c);
      if c < |ss[i - 1].cores| {
        ToldToStopIff(ss, acts, i - 1, c);
        StepTells(ss[i - 1], acts[i - 1], c);
      } else {
        NewCoreNotTold(ss[i - 1], acts[i - 1], c);
        NeverToldBefore(ss, acts, i - 1, c);
      }
    }
  }

  lemma NeverToldBefore(ss: seq<State>, acts: seq<Action>, i: nat, c: nat)
    requires Run(ss, acts) && i <= |acts| && |ss[i].cores| <= c
    ensures !WasTold(ss, acts, i, c)
  {
    forall k | 0 <= k < i ensures |ss[k].cores| <= c {
      GrowthAlongRun(ss, acts, k, i);
    }
  }

  /** The steps that stop the OS loop: a HALT served for the only core, or the end of kill_requests. */
  predicate StopsOs(s: State, a: Action) {
    || (a.OsServe? && s.os.Serving? && s.os.req.number == REQ_HALT && |s.cores| == 1)
    || (a.OsKill? && s.os.KillLocked? && s.hdlr.ring.count <= s.os.pass)
  }

  lemma StepStopsOs(s: State, a: Action)
    requires Enabled(s, a)
    ensures Apply(s, a).stop <==> s.stop || StopsOs(s, a)
  {
    if IsCoreAction(a) {
      CoreStepFrame(s, a);
    }
  }

  /** os.stop is set exactly by these, and the OS loop pops only while it is unset and some core counts
      as active, and ends only otherwise. */
  lemma {:induction false} OsStopsIff(ss: seq<State>, acts: seq<Action>, i: nat)
    requires Run(ss, acts) && i <= |acts|
    ensures ss[i].stop <==> exists k :: 0 <= k < i && StopsOs(ss[k], acts[k])
    ensures ss[i].os.PopLocked? ==> !ss[i].stop && ss[i].active > 0
    ensures ss[i].os.Stopped? ==> ss[i].stop || ss[i].active == 0
  {
    if i == 0 {
      var coreCount: nat, queueLen: nat :| ss[0] == Init(coreCount, queueLen);
    } else {
      OsStopsIff(ss, acts, i - 1);
      StepStopsOs(ss[i - 1], acts[i - 1]);
      LoopDecides(ss[i - 1], acts[i - 1]);
    }
  }

  lemma LoopDecides(s: State, a: Action)
    requires Enabled(s, a)
    requires s.os.PopLocked? ==> !s.stop && s.active > 0
    requires s.os.Stopped? ==> s.stop || s.active == 0
    ensures var t := Apply(s, a); t.os.PopLocked? ==> !t.stop && t.active > 0
    ensures var t := Apply(s, a); t.os.Stopped? ==> t.stop || t.active == 0
  {
    if IsCoreAction(a) {
      CoreStepFrame(s, a);
    }
  }

  // Preparing to exit

  /** The first `n` cores have been told to stop. */
  predicate ToldUpTo(cores: seq<Core>, n: nat) {
    n <= |cores| && forall c :: 0 <= c < n ==> cores[c].stop
  }

  predicate ExitInOrder(s: State) {
    && (s.os.StopCores? ==> ToldUpTo(s.cores, s.os.next))
    && (s.os.KillLocked? ==> ToldUpTo(s.cores, |s.cores|))
  }

  lemma StepExitInOrder(s: State, a: Action)
    requires Basic(s) && ExitInOrder(s) && Enabled(s, a)
    ensures ExitInOrder(Apply(s, a))
  {
    if IsCoreAction(a) {
      CoreStepFrame(s, a);
    } else {
      OsStepCores(s, a);
    }
  }

  /** prepare_for_exit tells every core to stop before it takes the first request out of the queue. */
  lemma {:induction false} AllToldBeforeKill(ss: seq<State>, acts: seq<Action>, i: nat)
    requires Run(ss, acts) && i <= |acts|
    ensures ExitInOrder(ss[i])
  {
    if i == 0 {
      var coreCount: nat, queueLen: nat :| ss[0] == Init(coreCount, queueLen);
    } else {
      AllToldBeforeKill(ss, acts, i - 1);
      CalmRun(ss, acts, i - 1);
      StepExitInOrder(ss[i - 1], acts[i - 1]);
    }
  }

  // A core's last request

  /** The core starts a request or an error report. */
  predicate Asks(a: Action, c: nat) {
    (a.CoreLockPush? || a.CoreLockPanic?) && a.core == c
  }

  /** The phases inside a request, and whether it is that of a HALT instruction. */
  function Call(p: Phase): Option<bool> {
    match p
    case PushLocked(_, halting) => Some(halting)
    case Enqueued(halting) => Some(halting)
    case Asleep(halting) => Some(halting)
    case Woken(halting) => Some(halting)
    case Reacquired(halting) => Some(halting)
    case _ => None
  }

  /** Told to stop, and past the test of stop_running for the last time. */
  predicate Leaving(core: Core) {
    core.stop && !core.phase.Executing?
  }

  /** In a HALT instruction, or leaving. */
  predicate Departing(core: Core) {
    Call(core.phase) == Some(true) || (core.stop && (core.phase.Running? || core.phase.Exited?))
  }

  /** How a step changes core c: nothing at all, as the OS may, or by the core's own action. */
  lemma StepOfCore(s: State, a: Action, c: nat)
    requires BootOrder(s) && Enabled(s, a) && c < |s.cores|
    ensures c < |Apply(s, a).cores|
    ensures var before, after := s.cores[c], Apply(s, a).cores[c];
            || after == before || (IsCoreAction(a) && a.core == c)
            || (!IsCoreAction(a) && CoreKept(before, after) && PhaseByOs(before.phase, after.phase))
  {
    if IsCoreAction(a) {
      CoreStepFrame(s, a);
    } else {
      OsStepCores(s, a);
    }
  }

  lemma OwnStepLeaves(s: State, a: Action)
    requires Enabled(s, a) && IsCoreAction(a)
    ensures a.core < |s.cores| && a.core < |Apply(s, a).cores|
    ensures var before, after := s.cores[a.core], Apply(s, a).cores[a.core];
            && (Leaving(before) ==> Leaving(after) && !Asks(a, a.core))
            && (Departing(before) ==> Departing(after) && !Asks(a, a.core))
            && (before.stop && Asks(a, a.core) ==> Leaving(after))
  {
  }

  lemma StepLeaves(s: State, a: Action, c: nat)
    requires BootOrder(s) && Enabled(s, a) && c < |s.cores|
    ensures c < |Apply(s, a).cores|
    ensures Leaving(s.cores[c]) ==> Leaving(Apply(s, a).cores[c]) && !Asks(a, c)
    ensures Departing(s.cores[c]) ==> Departing(Apply(s, a).cores[c]) && !Asks(a, c)
    ensures s.cores[c].stop && Asks(a, c) ==> Leaving(Apply(s, a).cores[c])
  {
    StepOfCore(s, a, c);
    if IsCoreAction(a) {
      OwnStepLeaves(s, a);
    }
  }

  /** Starting a HALT, reporting an error, or overflowing the queue. */
  predicate Departs(s: State, a: Action, c: nat) {
    match a
    case CoreLockPush(d, _, halting) => d == c && halting
    case CorePanic(d) => d == c
    case CorePush(d) => d == c && s.hdlr.more && Full(s.hdlr.ring)
    case _ => false
  }

  lemma StepDeparts(s: State, a: Action, c: nat)
    requires Enabled(s, a) && Departs(s, a, c)
    ensures c < |Apply(s, a).cores| && Departing(Apply(s, a).cores[c])
  {
  }

  lemma {:induction false} StaysLeaving(ss: seq<State>, acts: seq<Action>, i: nat, j: nat, c: nat)
    requires Run(ss, acts) && i <= j <= |acts| && c < |ss[i].cores|
    ensures c < |ss[j].cores|
    ensures Leaving(ss[i].cores[c]) ==> Leaving(ss[j].cores[c])
    ensures Departing(ss[i].cores[c]) ==> Departing(ss[j].cores[c])
    ensures ss[i].cores[c].stop ==> ss[j].cores[c].stop
    decreases j
  {
    if i < j {
      StaysLeaving(ss, acts, i, j - 1, c);
      CalmRun(ss, acts, j - 1);
      StepLeaves(ss[j - 1], acts[j - 1], c);
      StepTells(ss[j - 1], acts[j - 1], c);
    }
  }

  /** A core that executes HALT, reports an error or overflows the queue never starts another request or
      report, in any continuation. */
  lemma DepartingIsLast(ss: seq<State>, acts: seq<Action>, i: nat, j: nat, c: nat)
    requires Run(ss, acts) && i < j < |acts| && Departs(ss[i], acts[i], c)
    ensures !Asks(acts[j], c)
  {
    StepDeparts(ss[i], acts[i], c);
    StaysLeaving(ss, acts, i + 1, j, c);
    CalmRun(ss, acts, j);
    StepLeaves(ss[j], acts[j], c);
  }

  /** A core that has been told to stop starts at most one request or report more. */
  lemma AtMostOneMoreRequest(ss: seq<State>, acts: seq<Action>, i: nat, j: nat, k: nat, c: nat)
    requires Run(ss, acts) && i <= j < k < |acts| && c < |ss[i].cores| && ss[i].cores[c].stop
    ensures !(Asks(acts[j], c) && Asks(acts[k], c))
  {
    StaysLeaving(ss, acts, i, j, c);
    CalmRun(ss, acts, j);
    StepLeaves(ss[j], acts[j], c);
    StaysLeaving(ss, acts, j + 1, k, c);
    CalmRun(ss, acts, k);
    StepLeaves(ss[k], acts[k], c);
  }

  /** Core c is inside the call it started at step k. */
  predicate CallFrom(acts: seq<Action>, k: nat, i: nat, c: nat, halting: bool) {
    && k < i <= |acts| && acts[k].CoreLockPush? && acts[k].core == c && acts[k].halting == halting
    && forall j :: k < j < i ==> !Asks(acts[j], c)
  }

  lemma OwnStepCall(s: State, a: Action)
    requires Enabled(s, a) && IsCoreAction(a)
    ensures a.core < |s.cores| && a.core < |Apply(s, a).cores|
    ensures var before, after := Call(s.cores[a.core].phase), Call(Apply(s, a).cores[a.core].phase);
            after.Some? ==> after == if a.CoreLockPush? then Some(a.halting) else before
    ensures a.CoreLockPanic? ==> Call(Apply(s, a).cores[a.core].phase).None?
  {
  }

  lemma CallGoesOn(acts: seq<Action>, k: nat, i: nat, c: nat, halting: bool)
    requires i < |acts| && CallFrom(acts, k, i, c, halting) && !Asks(acts[i], c)
    ensures CallFrom(acts, k, i + 1, c, halting)
  {
  }

  lemma StepCall(s: State, a: Action, c: nat)
    requires Basic(s) && Enabled(s, a) && c < |Apply(s, a).cores| && Call(Apply(s, a).cores[c].phase).Some?
    ensures c < |s.cores|
    ensures if Asks(a, c) then a.CoreLockPush? && Call(Apply(s, a).cores[c].phase) == Some(a.halting)
            else Call(Apply(s, a).cores[c].phase) == Call(s.cores[c].phase)
  {
    CoresAddedByNewCore(s, a);
    StepOfCore(s, a, c);
    if IsCoreAction(a) {
      OwnStepCall(s, a);
    }
  }

  lemma CallOfStep(ss: seq<State>, acts: seq<Action>, i: nat, c: nat)
    requires Run(ss, acts) && i < |acts| && c < |ss[i + 1].cores| && Call(ss[i + 1].cores[c].phase).Some?
    ensures c < |ss[i].cores|
    ensures if Asks(acts[i], c) then acts[i].CoreLockPush? && Call(ss[i + 1].cores[c].phase) == Some(acts[i].halting)
            else Call(ss[i + 1].cores[c].phase) == Call(ss[i].cores[c].phase)
  {
    CalmRun(ss, acts, i);
    StepCall(ss[i], acts[i], c);
  }

  lemma NoCallAtStart(ss: seq<State>, acts: seq<Action>, c: nat)
    requires Run(ss, acts) && c < |ss[0].cores|
    ensures Call(ss[0].cores[c].phase).None?
  {
    var coreCount: nat, queueLen: nat :| ss[0] == Init(coreCount, queueLen);
  }

  /** A core inside a call is in the last one it started, and knows whether that was a HALT. */
  lemma {:induction false} CallIsLastAsked(ss: seq<State>, acts: seq<Action>, i: nat, c: nat) returns (k: nat)
    requires Run(ss, acts) && i <= |acts| && c < |ss[i].cores| && Call(ss[i].cores[c].phase).Some?
    ensures CallFrom(acts, k, i, c, Call(ss[i].cores[c].phase).value)
  {
    assert i > 0 by {
      if i == 0 {
        NoCallAtStart(ss, acts, c);
      }
    }
    CallOfStep(ss, acts, i - 1, c);
    if Asks(acts[i - 1], c) {
      k := i - 1;
    } else {
      k := CallIsLastAsked(ss, acts, i - 1, c);
      CallGoesOn(acts, k, i - 1, c, Call(ss[i].cores[c].phase).value);
    }
  }

  lemma OwnStepExits(s: State, a: Action)
    requires Enabled(s, a) && IsCoreAction(a)
    ensures a.core < |s.cores| && a.core < |Apply(s, a).cores|
    ensures Apply(s, a).cores[a.core].phase.Exited? <==>
            s.cores[a.core].phase.Exited? || (a == CoreEnter(a.core) && s.cores[a.core].stop)
  {
  }

  lemma StepExits(s: State, a: Action, c: nat)
    requires BootOrder(s) && Enabled(s, a) && c < |s.cores|
    ensures c < |Apply(s, a).cores|
    ensures Apply(s, a).cores[c].phase.Exited? <==>
            s.cores[c].phase.Exited? || (a == CoreEnter(c) && s.cores[c].stop)
  {
    StepOfCore(s, a, c);
    if IsCoreAction(a) {
      OwnStepExits(s, a);
    }
  }

  /** A core leaves the interpreter loop exactly by entering a turn after it was told to stop. */
  lemma {:induction false} ExitedIff(ss: seq<State>, acts: seq<Action>, i: nat, c: nat)
    requires Run(ss, acts) && i <= |acts| && c < |ss[i].cores|
    ensures ss[i].cores[c].phase.Exited? <==>
            exists k :: 0 <= k < i && c < |ss[k].cores| && acts[k] == CoreEnter(c) && ss[k].cores[c].stop
  {
    if i == 0 {
      var coreCount: nat, queueLen: nat :| ss[0] == Init(coreCount, queueLen);
    } else {
      CalmRun(ss, acts, i - 1);
      CoresAddedByNewCore(ss[i - 1], acts[i - 1]);
      if c < |ss[i - 1].cores| {
        ExitedIff(ss, acts, i - 1, c);
        StepExits(ss[i - 1], acts[i - 1], c);
      } else {
        forall k | 0 <= k < i ensures |ss[k].cores| <= c {
          GrowthAlongRun(ss, acts, k, i - 1);
        }
      }
    }
  }
}
