/** The request rendezvous between the core threads (merry/merry_core.c), the request handler
    (merry/merry_request_hdlr.c) and the OS thread (merry/merry_os.c), as a state machine.
    Every action is one atomic step of one thread: taking a lock, one critical-section body,
    going to sleep (which releases the lock), waking, or one turn of a loop. Any interleaving of
    enabled actions is a run. */
module Rendezvous {
  import opened Wrappers
  import opened RequestRing
  import opened RequestHandler

  const LAST_ERROR: nat := 150    // request numbers up to here are error reports
  const REQ_HALT: nat := 151
  const REQ_EXIT: nat := 152
  const REQ_NEWCORE: nat := 153
  const MAX_MSIZE: nat := 0xFFFF_FFFF_FFFF_FFFF

  /** Where a core thread stands. `halting` tells a HALT instruction from INTR. */
  datatype Phase =
    | Unbooted
    | Running                                 // at the top of the interpreter loop
    | Executing                               // past the stop_running test
    | PushLocked(number: nat, halting: bool)  // in push_request, lock held
    | Enqueued(halting: bool)                 // request queued, lock still held
    | Asleep(halting: bool)                   // in cond_wait, lock released
    | Woken(halting: bool)                    // signalled, must take the lock again
    | Reacquired(halting: bool)               // cond_wait returned, lock held
    | PanicLocked(error: nat)                 // in merry_requestHdlr_panic, lock held
    | Exited

  datatype Core = Core(id: nat, phase: Phase, stop: bool)

  datatype OsPhase =
    | Booting(next: nat)
    | LoopHead
    | PopLocked                                  // in pop_request, lock held
    | Waiting                                    // queue was empty
    | Serving(req: Request)
    | OsPanicLocked(req: Request, error: nat)    // a request handler panics, lock held
    | StopCores(req: Request, next: nat)         // first loop of prepare_for_exit
    | KillLocked(req: Request, pass: nat)        // kill_requests, lock held
    | Signalling(req: Request)                   // served, about to signal the requester
    | Stopped

  datatype Owner = Nobody | CoreOwns(core: nat) | OsOwns

  datatype State = State(
    cores: seq<Core>,
    lock: Owner,
    hdlr: Handler,
    os: OsPhase,
    stop: bool,
    active: nat,                // active_core_count
    // History, read by no action: what each part has done so far.
    halted: set<nat>,           // cores whose halt request has been served
    accepted: seq<Request>,     // requests that entered the queue
    fetched: seq<Request>,      // requests the OS popped to serve them
    served: seq<Request>,       // fetched requests whose requester has been signalled
    killed: seq<Request>,       // requests popped by kill_requests
    overflowed: bool,           // some push took the overflow branch
    panic: Option<nat>)         // the first error given to merry_requestHdlr_panic

  function Init(coreCount: nat, queueLen: nat): State {
    State(seq(coreCount, i requires 0 <= i < coreCount => Core(i, Unbooted, false)),
          Nobody, Handler(New(queueLen), true), Booting(0), false, 0,
          {}, [], [], [], [], false, None)
  }

  datatype Action =
    | CoreEnter(core: nat)
    | CoreLocal(core: nat)
    | CoreLockPush(core: nat, number: nat, halting: bool)
    | CorePush(core: nat)
    | CoreSleep(core: nat)
    | CoreRelock(core: nat)
    | CoreReturn(core: nat)
    | CoreLockPanic(core: nat, error: nat)
    | CorePanic(core: nat)
    | OsBoot
    | OsLoop
    | OsPop
    | OsWake
    | OsServe
    | OsLockPanic(error: nat)
    | OsPanic
    | OsStopCore
    | OsLockKill
    | OsKill
    | OsSignal

  /** The requests whose handlers can end in a panic: DYNL, DYNCALL and the file requests. */
  predicate HandlerMayPanic(number: nat) {
    number in {154, 156, 158, 159, 160, 161, 164}
  }

  predicate IsError(number: nat) {
    number <= LAST_ERROR
  }

  predicate Enabled(s: State, a: Action) {
    match a
    case CoreEnter(c) => c < |s.cores| && s.cores[c].phase.Running?
    case CoreLocal(c) => c < |s.cores| && s.cores[c].phase.Executing?
    case CoreLockPush(c, number, halting) =>
      && c < |s.cores| && s.cores[c].phase.Executing? && s.lock == Nobody
      && number <= 0xFFFF && (halting ==> number == REQ_HALT)
    case CorePush(c) => c < |s.cores| && s.cores[c].phase.PushLocked?
    case CoreSleep(c) => c < |s.cores| && s.cores[c].phase.Enqueued?
    case CoreRelock(c) => c < |s.cores| && s.cores[c].phase.Woken? && s.lock == Nobody
    case CoreReturn(c) => c < |s.cores| && s.cores[c].phase.Reacquired?
    case CoreLockPanic(c, error) =>
      c < |s.cores| && s.cores[c].phase.Executing? && s.lock == Nobody && IsError(error)
    case CorePanic(c) => c < |s.cores| && s.cores[c].phase.PanicLocked?
    case OsBoot => s.os.Booting?
    case OsLoop => s.os.LoopHead? && (s.stop || s.active == 0 || s.lock == Nobody)
    case OsPop => s.os.PopLocked?
    case OsWake => s.os.Waiting?
    case OsServe => s.os.Serving?
    case OsLockPanic(error) =>
      s.os.Serving? && HandlerMayPanic(s.os.req.number) && s.lock == Nobody && IsError(error)
    case OsPanic => s.os.OsPanicLocked?
    case OsStopCore => s.os.StopCores? && s.os.next < |s.cores|
    case OsLockKill => s.os.StopCores? && s.os.next >= |s.cores| && s.lock == Nobody
    case OsKill => s.os.KillLocked?
    case OsSignal => s.os.Signalling?
  }

  function SetPhase(s: State, c: nat, p: Phase): State
    requires c < |s.cores|
  {
    s.(cores := s.cores[c := s.cores[c].(phase := p)])
  }

  function SetStop(cores: seq<Core>, c: nat, stop: bool): seq<Core>
    requires c < |cores|
  {
    cores[c := cores[c].(stop := cores[c].stop || stop)]
  }

  /** cond_signal: wakes the owner of the condition variable if it is waiting on it now. */
  function Wake(cores: seq<Core>, cond: Cond): seq<Core> {
    if cond.CoreCond? && cond.core < |cores| && cores[cond.core].phase.Asleep? then
      cores[cond.core := cores[cond.core].(phase := Woken(cores[cond.core].phase.halting))]
    else cores
  }

  /** The decrement of an unsigned 64-bit counter. */
  function Decrement(n: nat): nat {
    if n == 0 then MAX_MSIZE else n - 1
  }

  /** push_request once the lock is held, up to cond_wait or to the unlock. */
  function PushBody(s: State, c: nat): State
    requires c < |s.cores| && s.cores[c].phase.PushLocked?
  {
    var Core(id, PushLocked(number, halting), stop) := s.cores[c];
    var r := Request(number, CoreCond(c), id);
    var pushed := s.(hdlr := AfterPush(s.hdlr, r));
    match PushOutcome(s.hdlr)
    case Accepted =>
      SetPhase(pushed, c, Enqueued(halting)).(accepted := s.accepted + [r])
    case Ignored =>
      // RET_SUCCESS without having been queued: only HALT stops the core
      pushed.(cores := s.cores[c := Core(id, Running, stop || halting)], lock := Nobody)
    case Overflowed =>
      // RET_FAILURE: INTR and HALT both stop the core
      pushed.(cores := s.cores[c := Core(id, Running, true)], lock := Nobody, overflowed := true)
  }

  function PanicBody(s: State, error: nat): State {
    s.(hdlr := AfterPanic(s.hdlr, error), lock := Nobody,
       panic := if s.hdlr.more then Some(error) else s.panic)
  }

  /** One turn of the OS switch over the request number. */
  function Serve(s: State, r: Request): State {
    if IsError(r.number) || r.number == REQ_EXIT then
      s.(os := StopCores(r, 0))
    else if r.number == REQ_HALT then
      s.(cores := if r.id < |s.cores| then SetStop(s.cores, r.id, true) else s.cores,
         stop := s.stop || |s.cores| == 1,
         active := Decrement(s.active),
         halted := s.halted + {r.id},
         os := Signalling(r))
    else if r.number == REQ_NEWCORE then
      // add_core appends a core whose id is the old core count, then boot_core starts it
      s.(cores := s.cores + [Core(|s.cores|, Running, false)],
         active := s.active + 1,
         os := Signalling(r))
    else
      s.(os := Signalling(r))
  }

  /** One pass of kill_requests, or its end, after which prepare_for_exit sets os.stop. */
  function KillBody(s: State, r: Request, pass: nat): State {
    var q := s.hdlr.ring;
    if pass < q.count then
      s.(hdlr := AfterPop(s.hdlr),
         cores := Wake(s.cores, Front(q).cond),
         killed := s.killed + [Front(q)],
         os := KillLocked(r, pass + 1))
    else
      s.(lock := Nobody, stop := true, os := Signalling(r))
  }

  function Apply(s: State, a: Action): State
    requires Enabled(s, a)
  {
    match a
    case CoreEnter(c) => SetPhase(s, c, if s.cores[c].stop then Exited else Executing)
    case CoreLocal(c) => SetPhase(s, c, Running)
    case CoreLockPush(c, number, halting) =>
      SetPhase(s, c, PushLocked(number, halting)).(lock := CoreOwns(c))
    case CorePush(c) => PushBody(s, c)
    case CoreSleep(c) => SetPhase(s, c, Asleep(s.cores[c].phase.halting)).(lock := Nobody)
    case CoreRelock(c) => SetPhase(s, c, Reacquired(s.cores[c].phase.halting)).(lock := CoreOwns(c))
    case CoreReturn(c) =>
      s.(cores := SetStop(SetPhase(s, c, Running).cores, c, s.cores[c].phase.halting),
         lock := Nobody)
    case CoreLockPanic(c, error) => SetPhase(s, c, PanicLocked(error)).(lock := CoreOwns(c))
    case CorePanic(c) =>
      PanicBody(s.(cores := s.cores[c := Core(s.cores[c].id, Running, true)]), s.cores[c].phase.error)
    case OsBoot =>
      var next := s.os.next;
      if next < |s.cores| then
        SetPhase(s, next, Running).(active := s.active + 1, os := Booting(next + 1))
      else s.(os := LoopHead)
    case OsLoop =>
      if s.stop || s.active == 0 then s.(os := Stopped) else s.(os := PopLocked, lock := OsOwns)
    case OsPop =>
      var q := s.hdlr.ring;
      if q.count == 0 then s.(os := Waiting, lock := Nobody)
      else s.(hdlr := AfterPop(s.hdlr), os := Serving(Front(q)), lock := Nobody,
              fetched := s.fetched + [Front(q)])
    case OsWake => s.(os := LoopHead)
    case OsServe => Serve(s, s.os.req)
    case OsLockPanic(error) => s.(os := OsPanicLocked(s.os.req, error), lock := OsOwns)
    case OsPanic => PanicBody(s.(os := Signalling(s.os.req)), s.os.error)
    case OsStopCore =>
      s.(cores := SetStop(s.cores, s.os.next, true), os := StopCores(s.os.req, s.os.next + 1))
    case OsLockKill => s.(os := KillLocked(s.os.req, 0), lock := OsOwns)
    case OsKill => KillBody(s, s.os.req, s.os.pass)
    case OsSignal =>
      s.(cores := Wake(s.cores, s.os.req.cond), os := LoopHead, served := s.served + [s.os.req])
  }

  /** A run: a start state and the states after each of a sequence of enabled actions. */
  ghost predicate Run(ss: seq<State>, acts: seq<Action>) {
    && |ss| == |acts| + 1
    && (exists coreCount: nat, queueLen: nat :: ss[0] == Init(coreCount, queueLen))
    && Steps(ss, acts)
  }

  ghost predicate Steps(ss: seq<State>, acts: seq<Action>)
    requires |ss| == |acts| + 1
  {
    forall i :: 0 <= i < |acts| ==> Enabled(ss[i], acts[i]) && ss[i + 1] == Apply(ss[i], acts[i])
  }

  /** The request the OS has fetched and not yet answered, if any. */
  function InService(os: OsPhase): seq<Request> {
    match os
    case Serving(r) => [r]
    case OsPanicLocked(r, _) => [r]
    case StopCores(r, _) => [r]
    case KillLocked(r, _) => [r]
    case Signalling(r) => [r]
    case _ => []
  }

  predicate HoldsLock(p: Phase) {
    p.PushLocked? || p.Enqueued? || p.Reacquired? || p.PanicLocked?
  }

  predicate OsHoldsLock(os: OsPhase) {
    os.PopLocked? || os.OsPanicLocked? || os.KillLocked?
  }

  /** The OS can still fetch requests later. */
  predicate OsLive(s: State) {
    && !s.os.KillLocked? && !s.os.Stopped?
    && (s.os.LoopHead? || s.os.Signalling? ==> !s.stop)
  }

  // What holds in every reachable state

  ghost predicate LockDiscipline(s: State) {
    && (forall c :: 0 <= c < |s.cores| ==> (HoldsLock(s.cores[c].phase) <==> s.lock == CoreOwns(c)))
    && (s.lock.CoreOwns? ==> s.lock.core < |s.cores|)
    && (OsHoldsLock(s.os) <==> s.lock == OsOwns)
  }

  ghost predicate Identified(s: State) {
    forall c :: 0 <= c < |s.cores| ==> s.cores[c].id == c
  }

  ghost predicate BootOrder(s: State) {
    && (s.os.Booting? ==> s.os.next <= |s.cores|)
    && forall c :: 0 <= c < |s.cores| ==>
         (s.cores[c].phase.Unbooted? <==> s.os.Booting? && s.os.next <= c)
  }

  ghost predicate Bookkeeping(s: State) {
    && (s.hdlr.more <==> s.panic.None?)
    && (s.stop ==> s.os.LoopHead? || s.os.Signalling? || s.os.Stopped?)
    && s.fetched == s.served + InService(s.os)
    && (OsLive(s) ==> s.killed == [])
  }

  /** Only error codes are ever given to merry_requestHdlr_panic. */
  ghost predicate ErrorCodes(s: State) {
    && (s.os.OsPanicLocked? ==> IsError(s.os.error))
    && (forall c :: 0 <= c < |s.cores| && s.cores[c].phase.PanicLocked? ==>
          IsError(s.cores[c].phase.error))
  }

  ghost predicate Basic(s: State) {
    LockDiscipline(s) && Identified(s) && BootOrder(s) && Bookkeeping(s) && ErrorCodes(s)
  }

  lemma InitBasic(coreCount: nat, queueLen: nat)
    ensures Basic(Init(coreCount, queueLen))
  {
  }

  predicate IsCoreAction(a: Action) {
    || a.CoreEnter? || a.CoreLocal? || a.CoreLockPush? || a.CorePush? || a.CoreSleep?
    || a.CoreRelock? || a.CoreReturn? || a.CoreLockPanic? || a.CorePanic?
  }

  /** How far one action may change a core: never its id, never from stopped back to running, and
      booted only by the OS. */
  predicate CoreKept(before: Core, after: Core) {
    && after.id == before.id && (before.stop ==> after.stop)
    && (before.phase.Unbooted? || !after.phase.Unbooted?)
  }

  /** Lock ownership moves only with the phase of the core that takes or releases it. */
  predicate LockMoved(s: State, t: State, c: nat)
    requires c < |s.cores| && c < |t.cores|
  {
    var held, holds := HoldsLock(s.cores[c].phase), HoldsLock(t.cores[c].phase);
    || (t.lock == s.lock && held == holds)
    || (s.lock == Nobody && t.lock == CoreOwns(c) && !held && holds)
    || (t.lock == Nobody && held && !holds)
  }

  /** A core action changes that core, the lock and the handler; the OS side stays as it is. */
  predicate CoreFramed(s: State, t: State, c: nat) {
    && c < |s.cores| && c < |t.cores| && t.cores == s.cores[c := t.cores[c]]
    && CoreKept(s.cores[c], t.cores[c]) && !s.cores[c].phase.Unbooted?
    && LockMoved(s, t, c)
    && t.os == s.os && t.stop == s.stop && t.active == s.active && t.halted == s.halted
    && t.fetched == s.fetched && t.served == s.served && t.killed == s.killed
  }

  lemma CoreBodyFrame(s: State, a: Action)
    requires Enabled(s, a) && (a.CorePush? || a.CorePanic?)
    ensures CoreFramed(s, Apply(s, a), a.core)
  {
  }

  lemma CoreStepFrame(s: State, a: Action)
    requires Enabled(s, a) && IsCoreAction(a)
    ensures CoreFramed(s, Apply(s, a), a.core)
  {
    if a.CorePush? || a.CorePanic? {
      CoreBodyFrame(s, a);
    }
  }

  lemma CoreStepHandler(s: State, a: Action)
    requires Enabled(s, a) && IsCoreAction(a)
    requires s.hdlr.more <==> s.panic.None?
    ensures var t, c := Apply(s, a), a.core;
            && (t.hdlr.more <==> t.panic.None?)
            && Capacity(t.hdlr.ring) == Capacity(s.hdlr.ring)
            && (t.cores[c].phase.PanicLocked? ==> IsError(t.cores[c].phase.error))
  {
  }

  /** The effect of an OS action on the phases of the cores. */
  predicate PhaseByOs(before: Phase, after: Phase) {
    || after == before
    || (before.Asleep? && after == Woken(before.halting))
    || (before.Unbooted? && after.Running?)
  }

  ghost predicate CoresByOs(before: seq<Core>, after: seq<Core>) {
    && |before| <= |after| <= |before| + 1
    && (forall c :: 0 <= c < |before| ==>
          CoreKept(before[c], after[c]) && PhaseByOs(before[c].phase, after[c].phase))
    && (forall c :: |before| <= c < |after| ==> after[c] == Core(c, Running, false))
  }

  lemma OsStepCores(s: State, a: Action)
    requires Enabled(s, a) && !IsCoreAction(a) && BootOrder(s)
    ensures CoresByOs(s.cores, Apply(s, a).cores)
    ensures !a.OsServe? ==> |Apply(s, a).cores| == |s.cores|
  {
  }

  lemma OsStepBoot(s: State, a: Action)
    requires Enabled(s, a) && !IsCoreAction(a) && BootOrder(s)
    ensures BootOrder(Apply(s, a))
  {
    OsStepCores(s, a);
    if !a.OsBoot? {
      forall c | 0 <= c < |Apply(s, a).cores| ensures !Apply(s, a).cores[c].phase.Unbooted? {
        if c < |s.cores| {
          assert CoreKept(s.cores[c], Apply(s, a).cores[c]);
        }
      }
    }
  }

  lemma OsStepLock(s: State, a: Action)
    requires Enabled(s, a) && !IsCoreAction(a)
    requires OsHoldsLock(s.os) <==> s.lock == OsOwns
    ensures var t := Apply(s, a);
            && (OsHoldsLock(t.os) <==> t.lock == OsOwns)
            && (t.lock == s.lock || (s.lock == Nobody && t.lock == OsOwns) ||
                (s.lock == OsOwns && t.lock == Nobody))
            && (t.os.OsPanicLocked? ==> s.os.OsPanicLocked? || IsError(t.os.error))
  {
  }

  lemma OsStepBookkeeping(s: State, a: Action)
    requires Enabled(s, a) && !IsCoreAction(a) && Bookkeeping(s)
    ensures Bookkeeping(Apply(s, a))
    ensures Capacity(Apply(s, a).hdlr.ring) == Capacity(s.hdlr.ring)
  {
  }

  lemma CoreStepBasic(s: State, a: Action)
    requires Basic(s) && Enabled(s, a) && IsCoreAction(a)
    ensures Basic(Apply(s, a))
    ensures |s.cores| == |Apply(s, a).cores|
    ensures Capacity(Apply(s, a).hdlr.ring) == Capacity(s.hdlr.ring)
  {
    CoreStepFrame(s, a);
    CoreStepHandler(s, a);
  }

  lemma OsStepLockDiscipline(s: State, a: Action)
    requires LockDiscipline(s) && BootOrder(s) && Enabled(s, a) && !IsCoreAction(a)
    ensures LockDiscipline(Apply(s, a))
  {
    OsStepCores(s, a);
    OsStepLock(s, a);
    forall c | 0 <= c < |Apply(s, a).cores|
      ensures HoldsLock(Apply(s, a).cores[c].phase) <==> Apply(s, a).lock == CoreOwns(c)
    {
      if c < |s.cores| {
        assert PhaseByOs(s.cores[c].phase, Apply(s, a).cores[c].phase);
      }
    }
  }

  lemma OsStepIdsAndErrors(s: State, a: Action)
    requires Basic(s) && Enabled(s, a) && !IsCoreAction(a)
    ensures Identified(Apply(s, a)) && ErrorCodes(Apply(s, a))
  {
    OsStepCores(s, a);
    OsStepLock(s, a);
    forall c | 0 <= c < |Apply(s, a).cores|
      ensures Apply(s, a).cores[c].id == c
      ensures Apply(s, a).cores[c].phase.PanicLocked? ==> IsError(Apply(s, a).cores[c].phase.error)
    {
      if c < |s.cores| {
        assert PhaseByOs(s.cores[c].phase, Apply(s, a).cores[c].phase);
      }
    }
  }

  /** Every action keeps Basic, whichever thread takes it; cores are only ever added, and the
      queue keeps its capacity. */
  lemma StepBasic(s: State, a: Action)
    requires Basic(s) && Enabled(s, a)
    ensures Basic(Apply(s, a))
    ensures |s.cores| <= |Apply(s, a).cores|
    ensures Capacity(Apply(s, a).hdlr.ring) == Capacity(s.hdlr.ring)
  {
    if IsCoreAction(a) {
      CoreStepBasic(s, a);
    } else {
      OsStepCores(s, a);
      OsStepBoot(s, a);
      OsStepLockDiscipline(s, a);
      OsStepIdsAndErrors(s, a);
      OsStepBookkeeping(s, a);
    }
  }
}
