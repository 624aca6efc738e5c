/** The rest of a run after its first panic, followed to the end: how many entries the OS still pops,
    which cores it wakes, and which ones sleep on when it has stopped. */
module RendezvousAftermath {
  import opened Wrappers
  import opened RequestRing
  import opened RequestHandler
  import opened Rendezvous
  import opened RendezvousCalm
  import opened RendezvousPanic
  import opened RendezvousOverflow
  import opened RendezvousHalt

  predicate Exits(number: nat) {
    IsError(number) || number == REQ_EXIT
  }

  /** Where the OS stands when the panic strikes: it has yet to fetch the error, it is already on its
      way to kill_requests, or it is past that. */
  datatype Plan = WillFetch | WillKill | Past

  function PlanOf(s: State): Plan {
    if s.stop || s.os.Stopped? then Past
    else if s.os.StopCores? || (s.os.Serving? && Exits(s.os.req.number)) then WillKill
    else WillFetch
  }

  /** How many entries leave a queue of n requests after the panic: with WillFetch the error and then
      half of the n entries behind it, with WillKill half of all n + 1, rounded up. */
  function FinalPops(plan: Plan, n: nat): nat {
    match plan
    case WillFetch => 1 + (n + 1) / 2
    case WillKill => (n + 2) / 2
    case Past => 0
  }

  /** The step from s panics, for the first time, in a calm state. */
  ghost predicate Strikes(s: State, a: Action, error: nat) {
    && Basic(s) && Calm(s) && CalmInv(s) && Enabled(s, a)
    && Apply(s, a).panic == Some(error) && IsError(error)
  }

  /** How many entries have left the queue since s. */
  function Gone(s: State, t: State): int {
    RendezvousPanic.Popped(s, t)
  }

  // What the OS does

  /** The phases the OS goes through after the panic, with the number p of entries popped so far. */
  predicate OnTrack(s: State, t: State, p: int, error: nat) {
    var n, mine, err := s.hdlr.ring.count, InService(s.os), ErrorRequest(error);
    var final := FinalPops(PlanOf(s), n);
    match PlanOf(s)
    case Past =>
      && p == 0 && (t.stop || t.os.Stopped?)
      && (t.os.LoopHead? || t.os.Stopped? || (t.os.Signalling? && [t.os.req] == mine))
    case WillKill =>
      (match t.os
       case Serving(r) => p == 0 && !t.stop && [r] == mine && Exits(r.number)
       case StopCores(r, _) => p == 0 && !t.stop && [r] == mine
       case KillLocked(r, pass) => p == pass && !t.stop && [r] == mine && (pass > 0 ==> 2 * (pass - 1) < n + 1)
       case Signalling(r) => p == final && t.stop && [r] == mine
       case LoopHead => p == final && t.stop
       case Stopped => p == final && t.stop
       case _ => false)
    case WillFetch =>
      (match t.os
       case Booting(_) => p == 0 && !t.stop
       case Waiting => p == 0 && !t.stop
       case PopLocked => p == 0 && !t.stop
       case OsPanicLocked(r, _) => p == 0 && !t.stop && [r] == mine
       case Serving(r) => !t.stop && if p == 0 then [r] == mine && !Exits(r.number) else p == 1 && r == err
       case StopCores(r, _) => p == 1 && !t.stop && r == err
       case KillLocked(r, pass) => p == 1 + pass && !t.stop && r == err && (pass > 0 ==> 2 * (pass - 1) < n)
       case Signalling(r) => if t.stop then p == final && r == err else p == 0 && [r] == mine
       case LoopHead => if t.stop then p == final else p == 0
       case Stopped => p == final && t.stop)
  }

  /** Core `spared` is booted and not halted, so the OS does not run out of active cores. */
  predicate Spares(t: State, spared: nat) {
    && spared < |t.cores| && !t.cores[spared].phase.Unbooted? && spared !in t.halted
    && (t.os.Serving? && t.os.req.number == REQ_HALT ==> t.os.req.id != spared && t.os.req.id < |t.cores|)
  }

  /** Who panics: a core itself, or the OS in the service of one. */
  function Panicker(s: State, a: Action): nat {
    if a.CorePanic? then a.core else if s.os.OsPanicLocked? then s.os.req.id else 0
  }

  /** The part of the state that a step after the panic works on. */
  ghost predicate Behind(s: State, t: State, error: nat, spared: nat) {
    && Basic(t) && !t.hdlr.more && t.panic == Some(error) && !t.overflowed
    && Gone(s, t) >= 0 && Gone(s, t) <= s.hdlr.ring.count + 1
    && t.hdlr.ring == PopTimes(PanicPush(s.hdlr.ring, ErrorRequest(error)), Gone(s, t))
    && OnTrack(s, t, Gone(s, t), error) && Spares(t, spared)
  }

  lemma {:induction false} PopTimesCounts(q: Ring, p: nat)
    requires p <= q.count <= |q.slots|
    ensures PopTimes(q, p).count == q.count - p
    ensures PopTimes(q, p).slots == q.slots && PopTimes(q, p).head == Slot(q, p)
  {
    if p > 0 {
      PopTimesCounts(q, p - 1);
    }
  }

  /** The entries in the order in which they are popped: the error, the requests behind the oldest
      one, and at last what the spare node holds. */
  lemma EntryAt(s: State, error: nat, p: nat)
    requires CalmInv(s) && p <= s.hdlr.ring.count
    ensures var q := s.hdlr.ring; var left := PopTimes(PanicPush(q, ErrorRequest(error)), p);
            && left.count == q.count + 1 - p
            && Front(left) == (if p == 0 then ErrorRequest(error)
                               else if p < q.count then Contents(q)[p] else q.slots[q.tail])
  {
    var q := s.hdlr.ring;
    var panicked := PanicPush(q, ErrorRequest(error));
    PopTimesCounts(panicked, p);
    assert Slot(panicked, p) == Slot(q, p);
    if p > 0 {
      assert Slot(q, p) != q.head;
    }
  }

  lemma StrikeSpares(s: State, a: Action, error: nat)
    requires Strikes(s, a, error) && HaltInv(s)
    ensures Spares(Apply(s, a), Panicker(s, a))
  {
    var c := Panicker(s, a);
    if a.OsPanic? {
      assert s.os.req in InService(s.os);
      assert Outstanding(s)[0] == s.os.req && Carries(Outstanding(s)[0], s.cores);
    }
    assert c in s.halted ==> Halting(s, c);
    if s.os.Serving? {
      assert s.os.req in InService(s.os);
    }
  }

  lemma StrikeBehind(s: State, a: Action, error: nat)
    requires Strikes(s, a, error) && HaltInv(s)
    ensures Behind(s, Apply(s, a), error, Panicker(s, a))
  {
    StepBasic(s, a);
    StrikeSpares(s, a, error);
    EmergencyEffect(s, a);
    assert PopTimes(Apply(s, a).hdlr.ring, 0) == Apply(s, a).hdlr.ring;
  }

  /** Nothing enters the closed queue, so only these two steps move its front. */
  predicate Pops(t: State, a: Action) {
    a.OsPop? || (a.OsKill? && t.os.KillLocked? && t.os.pass < t.hdlr.ring.count)
  }

  lemma StepGone(s: State, t: State, a: Action, error: nat, spared: nat)
    requires Behind(s, t, error, spared) && Enabled(t, a)
    ensures var u := Apply(t, a); var p := Gone(s, t);
            && !u.hdlr.more && u.panic == Some(error) && !u.overflowed
            && (Pops(t, a) && t.hdlr.ring.count > 0 ==> Gone(s, u) == p + 1 && u.hdlr.ring == Pop(t.hdlr.ring))
            && (!(Pops(t, a) && t.hdlr.ring.count > 0) ==> Gone(s, u) == p && u.hdlr.ring == t.hdlr.ring)
  {
  }

  lemma StepSpares(t: State, a: Action, spared: nat)
    requires Basic(t) && Enabled(t, a) && Spares(t, spared)
    requires a.OsPop? && t.hdlr.ring.count > 0 ==> IsError(Front(t.hdlr.ring).number)
    ensures Spares(Apply(t, a), spared)
  {
    if IsCoreAction(a) {
      CoreStepFrame(t, a);
    } else {
      OsStepCores(t, a);
      assert CoreKept(t.cores[spared], Apply(t, a).cores[spared]);
    }
  }

  lemma StepOnTrack(s: State, t: State, a: Action, error: nat, spared: nat)
    requires CalmInv(s) && Behind(s, t, error, spared) && t.active > 0 && IsError(error) && Enabled(t, a)
    requires t.hdlr.ring.count == s.hdlr.ring.count + 1 - Gone(s, t)
    requires Gone(s, t) == 0 ==> Front(t.hdlr.ring) == ErrorRequest(error)
    ensures OnTrack(s, Apply(t, a), Gone(s, Apply(t, a)), error)
  {
    StepGone(s, t, a, error, spared);
    if IsCoreAction(a) {
      CoreStepFrame(t, a);
    }
  }

  lemma StepBehind(s: State, t: State, a: Action, error: nat, spared: nat)
    requires CalmInv(s) && Behind(s, t, error, spared) && HaltInv(t) && IsError(error) && Enabled(t, a)
    ensures Behind(s, Apply(t, a), error, spared)
  {
    var p := Gone(s, t);
    StepBasic(t, a);
    StepGone(s, t, a, error, spared);
    PopTimesCounts(PanicPush(s.hdlr.ring, ErrorRequest(error)), p);
    if p <= s.hdlr.ring.count {
      EntryAt(s, error, p);
    }
    assert spared in ActiveCores(t);
    StepOnTrack(s, t, a, error, spared);
    StepSpares(t, a, spared);
  }

  // What happens to a core

  /** The condition variable that a step signals, if any. */
  function Signalled(t: State, a: Action): Cond {
    if a.OsSignal? && t.os.Signalling? then t.os.req.cond
    else if a.OsKill? && Pops(t, a) then Front(t.hdlr.ring).cond
    else Null
  }

  /** With the handler closed nobody goes to sleep any more, and a sleeper wakes up exactly when its
      condition variable is signalled. */
  lemma StepSleep(t: State, a: Action, c: nat)
    requires Basic(t) && Enabled(t, a) && !t.hdlr.more && c < |Apply(t, a).cores|
    requires c < |t.cores| ==> !t.cores[c].phase.Enqueued?
    ensures !Apply(t, a).cores[c].phase.Enqueued?
    ensures Apply(t, a).cores[c].phase.Asleep? <==>
              c < |t.cores| && t.cores[c].phase.Asleep? && Signalled(t, a) != CoreCond(c)
  {
    if IsCoreAction(a) {
      CoreStepFrame(t, a);
      if a.core == c {
        CoreStepSleep(t, a);
      }
    }
  }

  lemma CoreStepSleep(t: State, a: Action)
    requires Enabled(t, a) && IsCoreAction(a) && !t.hdlr.more && !t.cores[a.core].phase.Enqueued?
    ensures var u, c := Apply(t, a), a.core;
            && u.cores == t.cores[c := u.cores[c]] && !Waits(t.cores[c].phase) && !Waits(u.cores[c].phase)
  {
  }

  ghost predicate QueuedAt(s: State, c: nat, k: nat)
    requires CalmInv(s)
  {
    k < s.hdlr.ring.count && Contents(s.hdlr.ring)[k].cond == CoreCond(c)
  }

  /** What the spare node still holds of an earlier request. */
  predicate Stale(s: State, c: nat) {
    s.hdlr.ring.slots[s.hdlr.ring.tail].cond == CoreCond(c)
  }

  /** The owner of entry k sleeps until that entry is popped; the owner of the oldest one, which the
      error has overwritten, until the spare node is popped, if that one carries its variable. */
  predicate SleepsAt(s: State, c: nat, k: nat, p: int) {
    if k == 0 then !(p > s.hdlr.ring.count && Stale(s, c)) else p <= k
  }

  /** The fate of a core whose request was queued when the panic struck, ... */
  ghost predicate QueuedFate(s: State, t: State, c: nat, k: nat)
    requires CalmInv(s)
  {
    && QueuedAt(s, c, k) && c < |t.cores| && !t.cores[c].phase.Enqueued?
    && (t.cores[c].phase.Asleep? <==> SleepsAt(s, c, k, Gone(s, t)))
  }

  /** ... of one whose request was in service, ... */
  ghost predicate ServedFate(s: State, t: State, c: nat) {
    && ServedNow(s, c) && c < |t.cores| && !t.cores[c].phase.Enqueued?
    && (t.cores[c].phase.Asleep? <==> InService(t.os) == InService(s.os))
  }

  /** ... and of any other. */
  ghost predicate OtherFate(t: State, c: nat) {
    c < |t.cores| ==> !Waits(t.cores[c].phase)
  }

  predicate ServedNow(s: State, c: nat) {
    InService(s.os) != [] && InService(s.os)[0].cond == CoreCond(c)
  }

  predicate WaitsNow(s: State, c: nat) {
    c < |s.cores| && Waits(s.cores[c].phase)
  }

  ghost predicate Fates(s: State, t: State)
    requires CalmInv(s)
  {
    && (forall c, k :: QueuedAt(s, c, k) ==> QueuedFate(s, t, c, k))
    && (forall c :: ServedNow(s, c) ==> ServedFate(s, t, c))
    && (forall c: nat :: !WaitsNow(s, c) ==> OtherFate(t, c))
  }

  /** A request is in one place only. */
  lemma PlacesApart(s: State, c: nat, k: nat)
    requires CalmInv(s) && QueuedAt(s, c, k)
    ensures c < |s.cores| && Waits(s.cores[c].phase)
    ensures forall r :: r in InService(s.os) ==> r.cond != CoreCond(c) && r.cond != Null
    ensures forall j :: 0 <= j < s.hdlr.ring.count && j != k ==> Contents(s.hdlr.ring)[j].cond != CoreCond(c)
  {
    var out, first := Outstanding(s), |InService(s.os)|;
    assert out[first + k] == Contents(s.hdlr.ring)[k] && Carries(out[first + k], s.cores);
    forall r | r in InService(s.os) ensures r.cond != CoreCond(c) && r.cond != Null {
      assert out[0] == r && Carries(out[0], s.cores);
    }
    forall j | 0 <= j < s.hdlr.ring.count && j != k
      ensures Contents(s.hdlr.ring)[j].cond != CoreCond(c)
    {
      assert out[first + j] == Contents(s.hdlr.ring)[j] && Carries(out[first + j], s.cores);
    }
  }

  lemma StepQueuedFate(s: State, t: State, a: Action, error: nat, spared: nat, c: nat, k: nat)
    requires CalmInv(s) && Behind(s, t, error, spared) && Enabled(t, a)
    requires OnTrack(s, Apply(t, a), Gone(s, Apply(t, a)), error)
    requires QueuedFate(s, t, c, k)
    ensures QueuedFate(s, Apply(t, a), c, k)
  {
    var p := Gone(s, t);
    StepBasic(t, a);
    StepGone(s, t, a, error, spared);
    StepSleep(t, a, c);
    PlacesApart(s, c, k);
    PopTimesCounts(PanicPush(s.hdlr.ring, ErrorRequest(error)), p);
    if p <= s.hdlr.ring.count {
      EntryAt(s, error, p);
    }
    if a.OsSignal? {
      assert [t.os.req] == InService(s.os) || t.os.req == ErrorRequest(error);
      assert t.os.req in [t.os.req];
    }
  }

  /** The request that was in service stays so until it is answered. */
  lemma StepService(s: State, t: State, a: Action, error: nat, spared: nat)
    requires Behind(s, t, error, spared) && Enabled(t, a)
    requires OnTrack(s, Apply(t, a), Gone(s, Apply(t, a)), error)
    requires InService(s.os) != [] && InService(s.os)[0].cond != Null
    ensures InService(Apply(t, a).os) == InService(s.os) <==> InService(t.os) == InService(s.os) && !a.OsSignal?
  {
    StepGone(s, t, a, error, spared);
    if IsCoreAction(a) {
      CoreStepFrame(t, a);
    }
  }

  /** While it is in service, kill_requests signals only owners of queued requests. */
  lemma KillSparesServed(s: State, t: State, error: nat, spared: nat, c: nat)
    requires CalmInv(s) && Behind(s, t, error, spared) && Enabled(t, OsKill) && Pops(t, OsKill)
    requires InService(s.os) != [] && InService(s.os)[0].cond == CoreCond(c)
    requires InService(t.os) == InService(s.os)
    ensures Front(t.hdlr.ring).cond != CoreCond(c)
  {
    var p := Gone(s, t);
    PopTimesCounts(PanicPush(s.hdlr.ring, ErrorRequest(error)), p);
    EntryAt(s, error, p);
    if p > 0 {
      var out := Outstanding(s);
      assert out[0] == InService(s.os)[0] && out[1 + p] == Contents(s.hdlr.ring)[p];
      assert Carries(out[0], s.cores) && Carries(out[1 + p], s.cores);
    }
  }

  lemma StepServedFate(s: State, t: State, a: Action, error: nat, spared: nat, c: nat)
    requires CalmInv(s) && Behind(s, t, error, spared) && Enabled(t, a)
    requires OnTrack(s, Apply(t, a), Gone(s, Apply(t, a)), error)
    requires ServedFate(s, t, c)
    ensures ServedFate(s, Apply(t, a), c)
  {
    StepBasic(t, a);
    StepSleep(t, a, c);
    StepService(s, t, a, error, spared);
    if a.OsKill? && Pops(t, a) && InService(t.os) == InService(s.os) {
      KillSparesServed(s, t, error, spared, c);
    }
  }

  lemma StepOtherFate(s: State, t: State, a: Action, error: nat, spared: nat, c: nat)
    requires Behind(s, t, error, spared) && Enabled(t, a) && OtherFate(t, c)
    ensures OtherFate(Apply(t, a), c)
  {
    if c < |Apply(t, a).cores| {
      StepSleep(t, a, c);
    }
  }

  lemma StepFates(s: State, t: State, a: Action, error: nat, spared: nat)
    requires CalmInv(s) && Behind(s, t, error, spared) && Enabled(t, a)
    requires OnTrack(s, Apply(t, a), Gone(s, Apply(t, a)), error)
    requires Fates(s, t)
    ensures Fates(s, Apply(t, a))
  {
    forall c, k | QueuedAt(s, c, k) ensures QueuedFate(s, Apply(t, a), c, k) {
      StepQueuedFate(s, t, a, error, spared, c, k);
    }
    forall c | ServedNow(s, c) ensures ServedFate(s, Apply(t, a), c) {
      StepServedFate(s, t, a, error, spared, c);
    }
    forall c: nat | !WaitsNow(s, c) ensures OtherFate(Apply(t, a), c) {
      StepOtherFate(s, t, a, error, spared, c);
    }
  }

  /** The panic itself wakes nobody. */
  lemma StrikeKeepsSleepers(s: State, a: Action, error: nat, c: nat)
    requires Strikes(s, a, error) && c < |Apply(s, a).cores|
    ensures |Apply(s, a).cores| == |s.cores| && InService(Apply(s, a).os) == InService(s.os)
    ensures Gone(s, Apply(s, a)) == 0 && !Apply(s, a).cores[c].phase.Enqueued?
    ensures Apply(s, a).cores[c].phase.Asleep? <==> WaitsNow(s, c)
  {
  }

  lemma StrikeFates(s: State, a: Action, error: nat)
    requires Strikes(s, a, error)
    ensures Fates(s, Apply(s, a))
  {
    var t := Apply(s, a);
    EmergencyEffect(s, a);
    forall c, k | QueuedAt(s, c, k) ensures QueuedFate(s, t, c, k) {
      PlacesApart(s, c, k);
      StrikeKeepsSleepers(s, a, error, c);
    }
    forall c | ServedNow(s, c) ensures ServedFate(s, t, c) {
      assert Outstanding(s)[0] == InService(s.os)[0] && Carries(Outstanding(s)[0], s.cores);
      StrikeKeepsSleepers(s, a, error, c);
    }
    forall c: nat | !WaitsNow(s, c) ensures OtherFate(t, c) {
      if c < |t.cores| {
        StrikeKeepsSleepers(s, a, error, c);
      }
    }
  }

  // Along runs

  /** The first panic of the run strikes at step i, and no push has overflowed before. */
  ghost predicate StrikesAt(ss: seq<State>, acts: seq<Action>, i: nat) {
    && Run(ss, acts) && i < |acts|
    && Calm(ss[i]) && ss[i + 1].panic.Some?
  }

  lemma HaltInvUnlessOverflowed(ss: seq<State>, acts: seq<Action>, i: nat)
    requires Run(ss, acts) && i <= |acts| && !ss[i].overflowed
    ensures HaltInv(ss[i])
  {
    HaltRun(ss, acts, i);
  }

  lemma StrikeIsStep(ss: seq<State>, acts: seq<Action>, i: nat)
    requires StrikesAt(ss, acts, i)
    ensures Strikes(ss[i], acts[i], ss[i + 1].panic.value) && HaltInv(ss[i])
  {
    CalmRun(ss, acts, i);
    HaltInvUnlessOverflowed(ss, acts, i);
    FirstPanicIsFinal(ss, acts, i, i + 1, ss[i + 1].panic.value);
  }

  /** Every later state is on track, with the cores as their fates say. */
  lemma {:induction false} BehindRun(ss: seq<State>, acts: seq<Action>, i: nat, j: nat)
    requires StrikesAt(ss, acts, i) && i < j <= |acts|
    ensures CalmInv(ss[i]) && Fates(ss[i], ss[j])
    ensures Behind(ss[i], ss[j], ss[i + 1].panic.value, Panicker(ss[i], acts[i]))
    decreases j
  {
    var s, error := ss[i], ss[i + 1].panic.value;
    StrikeIsStep(ss, acts, i);
    if j == i + 1 {
      BehindFirst(s, acts[i], error);
    } else {
      BehindRun(ss, acts, i, j - 1);
      HaltInvUnlessOverflowed(ss, acts, j - 1);
      BehindNext(s, ss[j - 1], acts[j - 1], error, Panicker(s, acts[i]));
    }
  }

  lemma BehindFirst(s: State, a: Action, error: nat)
    requires Strikes(s, a, error) && HaltInv(s)
    ensures Behind(s, Apply(s, a), error, Panicker(s, a)) && Fates(s, Apply(s, a))
  {
    StrikeBehind(s, a, error);
    StrikeFates(s, a, error);
  }

  lemma BehindNext(s: State, t: State, a: Action, error: nat, spared: nat)
    requires CalmInv(s) && Behind(s, t, error, spared) && HaltInv(t) && IsError(error) && Enabled(t, a)
    requires Fates(s, t)
    ensures Behind(s, Apply(t, a), error, spared) && Fates(s, Apply(t, a))
  {
    StepBehind(s, t, a, error, spared);
    StepFates(s, t, a, error, spared);
  }

  // The main results

  /** The OS pops the spare node only when the error struck a queue of one request before it was on
      its way to kill_requests. */
  lemma PopsBound(s: State, t: State, error: nat, spared: nat)
    requires Behind(s, t, error, spared)
    ensures Gone(s, t) > s.hdlr.ring.count > 0 ==> s.hdlr.ring.count == 1 && PlanOf(s) == WillFetch
    ensures t.os.Stopped? ==> Gone(s, t) == FinalPops(PlanOf(s), s.hdlr.ring.count)
  {
  }

  predicate OldestMayWake(s: State) {
    s.hdlr.ring.count == 1 && Stale(s, Front(s.hdlr.ring).id) && PlanOf(s) == WillFetch
  }

  /** The oldest request is lost for good: its core sleeps in every later state, unless it was the only
      one queued, the spare node still carried this core's condition variable, and the OS was not yet
      on its way to kill_requests. */
  lemma OldestSleepsOn(ss: seq<State>, acts: seq<Action>, i: nat, j: nat)
    requires StrikesAt(ss, acts, i) && i < j <= |acts|
    requires ss[i].hdlr.ring.count > 0
    ensures var s := ss[i]; var lost := Front(s.hdlr.ring).id;
            && lost < |ss[j].cores|
            && (!OldestMayWake(s) ==> ss[j].cores[lost].phase.Asleep?)
  {
    var s := ss[i];
    StrikeIsStep(ss, acts, i);
    QueuedOnce(s, 0);
    BehindRun(ss, acts, i, j);
    assert QueuedAt(s, Front(s.hdlr.ring).id, 0);
    PopsBound(s, ss[j], ss[i + 1].panic.value, Panicker(s, acts[i]));
  }

  /** Entry k of the queue belongs to a core that is never woken. */
  predicate LeftAsleep(s: State, c: nat, k: nat) {
    var n := s.hdlr.ring.count;
    match PlanOf(s)
    case WillFetch => if k == 0 then !(n == 1 && Stale(s, c)) else 1 + (n + 1) / 2 <= k
    case WillKill => k == 0 || (n + 2) / 2 <= k
    case Past => true
  }

  /** Who sleeps when the OS has stopped after a panic: exactly the cores whose request was queued
      when it struck and is not among those that kill_requests still reached. */
  lemma AsleepWhenStopped(ss: seq<State>, acts: seq<Action>, i: nat, j: nat, c: nat)
    requires StrikesAt(ss, acts, i) && i < j <= |acts|
    requires ss[j].os.Stopped? && c < |ss[j].cores|
    ensures CalmInv(ss[i])
    ensures Waits(ss[j].cores[c].phase) <==> exists k :: QueuedAt(ss[i], c, k) && LeftAsleep(ss[i], c, k)
  {
    var s, t := ss[i], ss[j];
    StrikeIsStep(ss, acts, i);
    BehindRun(ss, acts, i, j);
    PopsBound(s, t, ss[i + 1].panic.value, Panicker(s, acts[i]));
    if k :| QueuedAt(s, c, k) {
      PlacesApart(s, c, k);
      assert QueuedFate(s, t, c, k);
      assert Waits(t.cores[c].phase) <==> LeftAsleep(s, c, k);
    } else if WaitsNow(s, c) {
      ServedOrQueued(s, c);
      assert ServedFate(s, t, c);
    } else {
      assert OtherFate(t, c);
    }
  }

  /** In a calm state whoever waits has a request in service or in the queue. */
  lemma ServedOrQueued(s: State, c: nat)
    requires CalmInv(s) && WaitsNow(s, c)
    ensures ServedNow(s, c) || exists k :: QueuedAt(s, c, k)
  {
    var out, first := Outstanding(s), |InService(s.os)|;
    assert HasRequest(out, c);
    var k :| 0 <= k < |out| && out[k].id == c;
    assert Carries(out[k], s.cores);
    if k >= first {
      assert out[k] == Contents(s.hdlr.ring)[k - first];
      assert QueuedAt(s, c, k - first);
    }
  }

  // How every run can be brought to its end

  /** The next step of the OS, when no core holds the lock. */
  function OsAction(t: State): Action {
    match t.os
    case Booting(_) => OsBoot
    case LoopHead => OsLoop
    case PopLocked => OsPop
    case Waiting => OsWake
    case Serving(_) => OsServe
    case OsPanicLocked(_, _) => OsPanic
    case StopCores(_, next) => if next < |t.cores| then OsStopCore else OsLockKill
    case KillLocked(_, _) => OsKill
    case Signalling(_) => OsSignal
    case Stopped => OsLoop
  }

  /** How far the OS is from the end of its loop, phase by phase ... */
  function Stage(t: State): nat {
    match t.os
    case Stopped => 0
    case LoopHead => if t.stop then 1 else 7
    case Signalling(_) => if t.stop then 2 else 8
    case KillLocked(_, _) => 3
    case StopCores(_, _) => 4
    case Serving(r) => if Exits(r.number) then 5 else 10
    case PopLocked => 6
    case Waiting => 8
    case OsPanicLocked(_, _) => 9
    case Booting(_) => 11
  }

  /** ... and within the phases that loop. */
  function Left(t: State): nat {
    match t.os
    case Booting(next) => if next <= |t.cores| then |t.cores| - next else 0
    case StopCores(_, next) => if next <= |t.cores| then |t.cores| - next else 0
    case KillLocked(_, _) => t.hdlr.ring.count
    case _ => 0
  }

  lemma OsCanAct(s: State, t: State, error: nat, spared: nat)
    requires Behind(s, t, error, spared) && !t.lock.CoreOwns? && !t.os.Stopped?
    ensures Enabled(t, OsAction(t)) && !Apply(t, OsAction(t)).lock.CoreOwns?
  {
  }

  lemma OsProceeds(s: State, t: State, u: State, error: nat, spared: nat)
    requires CalmInv(s) && Behind(s, t, error, spared) && IsError(error) && t.active > 0
    requires !t.os.Stopped? && Enabled(t, OsAction(t)) && u == Apply(t, OsAction(t))
    requires OnTrack(s, u, Gone(s, u), error)
    ensures Stage(u) < Stage(t) || (Stage(u) == Stage(t) && Left(u) < Left(t))
  {
    if t.os.PopLocked? {
      PopTimesCounts(PanicPush(s.hdlr.ring, ErrorRequest(error)), Gone(s, t));
      EntryAt(s, error, 0);
    } else {
      OsProceedsInside(s, t, u, error);
    }
  }

  /** Without a pop from the OS loop the phase alone shows the progress. */
  lemma OsProceedsInside(s: State, t: State, u: State, error: nat)
    requires OnTrack(s, t, Gone(s, t), error) && OnTrack(s, u, Gone(s, u), error) && t.active > 0
    requires !t.os.Stopped? && !t.os.PopLocked? && Enabled(t, OsAction(t)) && u == Apply(t, OsAction(t))
    ensures Stage(u) < Stage(t) || (Stage(u) == Stage(t) && Left(u) < Left(t))
  {
    if t.os.Serving? {
      ServiceProceeds(s, t, error);
    }
  }

  lemma ServiceProceeds(s: State, t: State, error: nat)
    requires OnTrack(s, t, Gone(s, t), error) && t.os.Serving?
    ensures Stage(Serve(t, t.os.req)) < Stage(t)
  {
  }

  /** A run that goes on from another one. */
  ghost predicate Continues(ss: seq<State>, acts: seq<Action>, tt: seq<State>, bb: seq<Action>) {
    Run(tt, bb) && |ss| == |acts| + 1 && ss <= tt && acts <= bb
  }

  lemma ContinueBy(ss: seq<State>, acts: seq<Action>, tt: seq<State>, bb: seq<Action>, a: Action)
    requires Continues(ss, acts, tt, bb) && Enabled(tt[|bb|], a)
    ensures Continues(ss, acts, tt + [Apply(tt[|bb|], a)], bb + [a])
  {
  }

  /** From any state behind the panic in which no core holds the lock, the OS alone can finish. */
  lemma {:induction false} CanStop(ss: seq<State>, acts: seq<Action>, i: nat, tt: seq<State>, bb: seq<Action>)
    returns (tt': seq<State>, bb': seq<Action>)
    requires Continues(ss, acts, tt, bb) && StrikesAt(tt, bb, i) && !tt[|bb|].lock.CoreOwns?
    ensures Continues(ss, acts, tt', bb') && tt <= tt' && bb <= bb' && tt'[|bb'|].os.Stopped?
    decreases Stage(tt[|bb|]), Left(tt[|bb|])
  {
    tt', bb' := tt, bb;
    var s, t, error, spared := tt[i], tt[|bb|], tt[i + 1].panic.value, Panicker(tt[i], bb[i]);
    if !t.os.Stopped? {
      StrikeIsStep(tt, bb, i);
      BehindRun(tt, bb, i, |bb|);
      HaltInvUnlessOverflowed(tt, bb, |bb|);
      assert spared in ActiveCores(t);
      var a := OsAction(t);
      OsCanAct(s, t, error, spared);
      StepBehind(s, t, a, error, spared);
      OsProceeds(s, t, Apply(t, a), error, spared);
      ContinueBy(ss, acts, tt, bb, a);
      tt', bb' := CanStop(ss, acts, i, tt + [Apply(t, a)], bb + [a]);
    }
  }

  /** With that the condition of OldestSleepsOn is exact: after a panic on a non-empty queue some
      continuation wakes the core with the oldest request if and only if OldestMayWake holds. */
  lemma OldestWakesIff(ss: seq<State>, acts: seq<Action>, i: nat)
    requires StrikesAt(ss, acts, i) && |acts| == i + 1 && ss[i].hdlr.ring.count > 0
    ensures OldestMayWake(ss[i]) <==>
            exists tt, bb :: Continues(ss, acts, tt, bb) && Awake(tt[|bb|], Front(ss[i].hdlr.ring).id)
  {
    var s := ss[i];
    var lost := Front(s.hdlr.ring).id;
    StrikeIsStep(ss, acts, i);
    if OldestMayWake(s) {
      StrikeFreesLock(s, acts[i]);
      var tt, bb := CanStop(ss, acts, i, ss, acts);
      assert tt[i] == s && StrikesAt(tt, bb, i);
      QueuedOnce(s, 0);
      BehindRun(tt, bb, i, |bb|);
      PopsBound(s, tt[|bb|], ss[i + 1].panic.value, Panicker(s, acts[i]));
      assert QueuedAt(s, lost, 0);
      assert Awake(tt[|bb|], lost);
    }
    forall tt, bb | Continues(ss, acts, tt, bb) && Awake(tt[|bb|], lost)
      ensures OldestMayWake(s)
    {
      assert tt[i] == s && tt[i + 1] == ss[i + 1];
      OldestSleepsOn(tt, bb, i, |bb|);
    }
  }

  predicate Awake(t: State, c: nat) {
    c < |t.cores| && !Waits(t.cores[c].phase)
  }

  lemma StrikeFreesLock(s: State, a: Action)
    requires Enabled(s, a) && s.panic.None? && Apply(s, a).panic.Some?
    ensures Apply(s, a).lock == Nobody
  {
  }

  // A run in which the oldest request is not lost after all

  /** Core 0 has been served i times, so the first i nodes still hold its requests; the queue is empty. */
  ghost predicate ServedBefore(s: State, coreCount: nat, queueLen: nat, i: nat) {
    && 2 <= |s.cores| == coreCount && s.lock == Nobody && s.os.LoopHead? && !s.stop
    && s.active == coreCount && s.hdlr.more && !s.overflowed
    && s.cores[0] == Core(0, Running, false) && s.cores[1] == Core(1, Running, false)
    && Capacity(s.hdlr.ring) == queueLen && s.hdlr.ring.count == 0
    && i <= queueLen && s.hdlr.ring.head == s.hdlr.ring.tail == i
    && forall k :: 0 <= k < i ==> s.hdlr.ring.slots[k].cond == CoreCond(0)
  }

  lemma ServeAgain(ss: seq<State>, acts: seq<Action>, coreCount: nat, queueLen: nat, i: nat)
    returns (ss': seq<State>, acts': seq<Action>)
    requires RunOf(ss, acts, coreCount, queueLen) && 2 <= coreCount
    requires ServedBefore(ss[|acts|], coreCount, queueLen, i) && i < queueLen
    ensures RunOf(ss', acts', coreCount, queueLen)
    ensures ServedBefore(ss'[|acts'|], coreCount, queueLen, i + 1)
  {
    ss', acts' := ToSleep(ss, acts, coreCount, queueLen, 0, REQ_MEM);
    ss', acts' := Do(ss', acts', coreCount, queueLen, OsLoop);
    ss', acts' := Do(ss', acts', coreCount, queueLen, OsPop);
    ss', acts' := Do(ss', acts', coreCount, queueLen, OsServe);
    ss', acts' := Do(ss', acts', coreCount, queueLen, OsSignal);
    ss', acts' := Do(ss', acts', coreCount, queueLen, CoreRelock(0));
    ss', acts' := Do(ss', acts', coreCount, queueLen, CoreReturn(0));
  }

  lemma {:induction false} ServeRepeatedly(coreCount: nat, queueLen: nat, i: nat)
    returns (ss: seq<State>, acts: seq<Action>)
    requires 2 <= coreCount && i <= queueLen
    ensures RunOf(ss, acts, coreCount, queueLen)
    ensures ServedBefore(ss[|acts|], coreCount, queueLen, i)
    decreases i
  {
    if i == 0 {
      ss, acts := BootAll(coreCount, queueLen, coreCount);
      ss, acts := Do(ss, acts, coreCount, queueLen, OsBoot);
    } else {
      ss, acts := ServeRepeatedly(coreCount, queueLen, i - 1);
      ss, acts := ServeAgain(ss, acts, coreCount, queueLen, i - 1);
    }
  }

  /** With two cores or more and any queue with a node: core 0 is served once for every node, makes one
      request more, and core 1 divides by zero while that is queued. */
  lemma OldestMayWakeReachable(coreCount: nat, queueLen: nat)
    returns (ss: seq<State>, acts: seq<Action>)
    requires 2 <= coreCount && 1 <= queueLen
    ensures RunOf(ss, acts, coreCount, queueLen) && |acts| > 0
    ensures StrikesAt(ss, acts, |acts| - 1) && OldestMayWake(ss[|acts| - 1])
  {
    ss, acts := ServeRepeatedly(coreCount, queueLen, queueLen);
    ss, acts := ToSleep(ss, acts, coreCount, queueLen, 0, REQ_MEM);
    ss, acts := Do(ss, acts, coreCount, queueLen, CoreEnter(1));
    ss, acts := Do(ss, acts, coreCount, queueLen, CoreLockPanic(1, 53));
    CalmRun(ss, acts, |acts|);
    var s := ss[|acts|];
    Extend(ss, acts, coreCount, queueLen, CorePanic(1));
    ss, acts := ss + [Apply(s, CorePanic(1))], acts + [CorePanic(1)];
    assert ss[|acts| - 1] == s;
  }
}
