/** Runs without panic: requests and sleeping cores match one to one, every signal finds its
    target waiting, requests are served in acceptance order, and the queue cannot overflow while
    there are at most as many cores as queue nodes. */
module RendezvousCalm {
  import opened Wrappers
  import opened RequestRing
  import opened RequestHandler
  import opened Rendezvous
  import Finite

  /** No panic has been raised and no push has overflowed. */
  predicate Calm(s: State) {
    s.panic.None? && !s.overflowed
  }

  /** In service first, then the queue from the oldest to the newest entry. */
  function Outstanding(s: State): seq<Request>
    requires Linked(s.hdlr.ring)
  {
    InService(s.os) + Contents(s.hdlr.ring)
  }

  /** A core that has queued its request and not been signalled yet. */
  predicate Waits(p: Phase) {
    p.Enqueued? || p.Asleep?
  }

  /** Each outstanding request carries its own core's condition variable and id, no core has two,
      and every waiting core has one. */
  ghost predicate Matched(out: seq<Request>, cores: seq<Core>) {
    && (forall k :: 0 <= k < |out| ==> Carries(out[k], cores))
    && (forall j, k :: 0 <= j < k < |out| ==> out[j].id != out[k].id)
    && (forall c :: 0 <= c < |cores| && Waits(cores[c].phase) ==> HasRequest(out, c))
  }

  predicate Carries(r: Request, cores: seq<Core>) {
    r.cond == CoreCond(r.id) && r.id < |cores| && Waits(cores[r.id].phase)
  }

  ghost predicate HasRequest(out: seq<Request>, c: nat) {
    exists k :: 0 <= k < |out| && out[k].id == c
  }

  lemma MatchedAfterEnqueue(out: seq<Request>, cores: seq<Core>, c: nat, r: Request, core: Core)
    requires Matched(out, cores) && c < |cores| && !Waits(cores[c].phase) && Waits(core.phase)
    requires r.cond == CoreCond(c) && r.id == c
    ensures Matched(out + [r], cores[c := core])
  {
    var out' := out + [r];
    forall d | 0 <= d < |cores| && Waits(cores[c := core][d].phase) ensures HasRequest(out', d) {
      if d == c {
        assert out'[|out|].id == c;
      } else {
        var k :| 0 <= k < |out| && out[k].id == d;
        assert out'[k].id == d;
      }
    }
  }

  /** Changing a core without changing whether it waits. */
  lemma MatchedAfterUpdate(out: seq<Request>, cores: seq<Core>, c: nat, core: Core)
    requires Matched(out, cores) && c < |cores| && (Waits(cores[c].phase) <==> Waits(core.phase))
    ensures Matched(out, cores[c := core])
  {
  }

  /** Waking the owner of one outstanding request while removing that request. */
  lemma MatchedAfterWake(before: seq<Request>, r: Request, after: seq<Request>, cores: seq<Core>)
    requires Matched(before + [r] + after, cores) && r.id < |cores| && cores[r.id].phase.Asleep?
    ensures r.cond == CoreCond(r.id)
    ensures Matched(before + after, Wake(cores, r.cond))
  {
    var out := before + [r] + after;
    var out' := before + after;
    assert out[|before|] == r;
    assert Carries(out[|before|], cores);
    forall k | 0 <= k < |out'| ensures Carries(out'[k], Wake(cores, r.cond)) && out'[k].id != r.id {
      var k' := if k < |before| then k else k + 1;
      assert out'[k] == out[k'];
      assert Carries(out[k'], cores);
      assert k' != |before|;
    }
    forall j, k | 0 <= j < k < |out'| ensures out'[j].id != out'[k].id {
      assert out'[j] == out[if j < |before| then j else j + 1];
      assert out'[k] == out[if k < |before| then k else k + 1];
    }
    forall c | 0 <= c < |cores| && Waits(Wake(cores, r.cond)[c].phase) ensures HasRequest(out', c) {
      var k :| 0 <= k < |out| && out[k].id == c;
      assert out'[if k < |before| then k else k - 1] == out[k];
    }
  }

  lemma MatchedAfterNewCore(out: seq<Request>, cores: seq<Core>, core: Core)
    requires Matched(out, cores) && !Waits(core.phase)
    ensures Matched(out, cores + [core])
  {
    var cores' := cores + [core];
    forall c | 0 <= c < |cores'| && Waits(cores'[c].phase) ensures HasRequest(out, c) {
      assert cores'[c] == cores[c];
    }
  }

  /** What a calm state satisfies beyond Basic. */
  ghost predicate CalmInv(s: State) {
    && Linked(s.hdlr.ring)
    && Matched(Outstanding(s), s.cores)
    && (forall r :: r in InService(s.os) ==> r.id < |s.cores| && s.cores[r.id].phase.Asleep?)
    && s.accepted == s.served + InService(s.os) + s.killed + Contents(s.hdlr.ring)
  }

  // One lemma for each kind of action

  lemma PushEffect(s: State, c: nat)
    requires Basic(s) && Calm(s) && Enabled(s, CorePush(c)) && Calm(Apply(s, CorePush(c)))
    ensures var t := Apply(s, CorePush(c));
            var r := Request(s.cores[c].phase.number, CoreCond(c), c);
            && !Full(s.hdlr.ring) && t.hdlr.ring == Push(s.hdlr.ring, r) && t.accepted == s.accepted + [r]
            && t.cores == s.cores[c := t.cores[c]] && t.cores[c].phase.Enqueued?
            && t.os == s.os && t.served == s.served && t.killed == s.killed
  {
  }

  /** The request enters the queue at its end; nothing else changes. */
  lemma QueuedAtEnd(s: State, t: State, r: Request)
    requires CalmInv(s) && Linked(t.hdlr.ring) && Contents(t.hdlr.ring) == Contents(s.hdlr.ring) + [r]
    requires t.os == s.os && t.served == s.served && t.killed == s.killed && t.accepted == s.accepted + [r]
    ensures Outstanding(t) == Outstanding(s) + [r]
    ensures t.accepted == t.served + InService(t.os) + t.killed + Contents(t.hdlr.ring)
  {
    var before, mine := s.served + InService(s.os) + s.killed, InService(s.os);
    assert (before + Contents(s.hdlr.ring)) + [r] == before + (Contents(s.hdlr.ring) + [r]);
    assert (mine + Contents(s.hdlr.ring)) + [r] == mine + (Contents(s.hdlr.ring) + [r]);
  }

  lemma CalmPush(s: State, c: nat)
    requires Basic(s) && CalmInv(s) && Calm(s) && Enabled(s, CorePush(c))
    requires Calm(Apply(s, CorePush(c)))
    ensures CalmInv(Apply(s, CorePush(c)))
  {
    var t := Apply(s, CorePush(c));
    var r := Request(s.cores[c].phase.number, CoreCond(c), c);
    PushEffect(s, c);
    PushAppends(s.hdlr.ring, r);
    QueuedAtEnd(s, t, r);
    MatchedAfterEnqueue(Outstanding(s), s.cores, c, r, t.cores[c]);
  }

  /** The core whose request the OS pops next holds no lock, so it is asleep. */
  lemma FrontSleeps(s: State)
    requires Basic(s) && CalmInv(s) && s.os.PopLocked? && s.hdlr.ring.count > 0
    ensures var r := Front(s.hdlr.ring); r.id < |s.cores| && s.cores[r.id].phase.Asleep?
    ensures Contents(s.hdlr.ring) == [Front(s.hdlr.ring)] + Contents(Pop(s.hdlr.ring))
  {
    PopRemovesOldest(s.hdlr.ring);
    assert Outstanding(s)[0] == Front(s.hdlr.ring) && Carries(Outstanding(s)[0], s.cores);
    assert !s.cores[Front(s.hdlr.ring).id].phase.Enqueued?;
  }

  lemma PopEffect(s: State)
    requires Enabled(s, OsPop)
    ensures var t := Apply(s, OsPop); var q := s.hdlr.ring;
            && t.cores == s.cores && t.hdlr.ring == Pop(q) && t.accepted == s.accepted
            && t.served == s.served && t.killed == s.killed
            && t.os == if q.count == 0 then Waiting else Serving(Front(q))
  {
  }

  /** The front of the queue moves into service; nothing else changes. */
  lemma FrontIntoService(s: State, t: State, r: Request)
    requires CalmInv(s) && InService(s.os) == [] && s.killed == []
    requires t.cores == s.cores && t.accepted == s.accepted && t.served == s.served && t.killed == s.killed
    requires InService(t.os) == [r] && r.id < |s.cores| && s.cores[r.id].phase.Asleep?
    requires Linked(t.hdlr.ring) && Contents(s.hdlr.ring) == [r] + Contents(t.hdlr.ring)
    ensures CalmInv(t)
  {
    assert Outstanding(s) == Contents(s.hdlr.ring);
    assert Outstanding(t) == Outstanding(s);
    calc {
      t.accepted;
      s.served + [] + [] + Contents(s.hdlr.ring);
      s.served + [r] + [] + Contents(t.hdlr.ring);
    }
  }

  lemma CalmPop(s: State)
    requires Basic(s) && CalmInv(s) && Calm(s) && Enabled(s, OsPop)
    ensures CalmInv(Apply(s, OsPop))
  {
    PopEffect(s);
    PopRemovesOldest(s.hdlr.ring);
    if s.hdlr.ring.count > 0 {
      FrontSleeps(s);
      FrontIntoService(s, Apply(s, OsPop), Front(s.hdlr.ring));
    } else {
      assert Outstanding(Apply(s, OsPop)) == Outstanding(s);
    }
  }

  lemma CalmKill(s: State)
    requires Basic(s) && CalmInv(s) && Calm(s) && Enabled(s, OsKill)
    ensures CalmInv(Apply(s, OsKill))
  {
    var t := Apply(s, OsKill);
    var q := s.hdlr.ring;
    if s.os.pass < q.count {
      PopRemovesOldest(q);
      var r := Front(q);
      var mine := InService(s.os);
      assert Outstanding(s) == mine + [r] + Contents(Pop(q));
      assert Outstanding(s)[1] == r && Carries(Outstanding(s)[1], s.cores);
      assert !s.cores[r.id].phase.Enqueued?;
      MatchedAfterWake(mine, r, Contents(Pop(q)), s.cores);
      assert Outstanding(t) == mine + Contents(Pop(q));
      assert Outstanding(s)[0] == s.os.req && Outstanding(s)[0].id != r.id;
    }
  }

  lemma CalmSignal(s: State)
    requires Basic(s) && CalmInv(s) && Calm(s) && Enabled(s, OsSignal)
    ensures CalmInv(Apply(s, OsSignal))
  {
    var t := Apply(s, OsSignal);
    var r := s.os.req;
    assert r in InService(s.os);
    assert Outstanding(s) == [] + [r] + Contents(s.hdlr.ring);
    MatchedAfterWake([], r, Contents(s.hdlr.ring), s.cores);
    assert Outstanding(t) == [] + Contents(s.hdlr.ring);
  }

  lemma CalmServe(s: State)
    requires Basic(s) && CalmInv(s) && Calm(s) && Enabled(s, OsServe)
    ensures CalmInv(Apply(s, OsServe))
  {
    var t := Apply(s, OsServe);
    var r := s.os.req;
    assert r in InService(s.os) && InService(t.os) == InService(s.os);
    if r.number == REQ_HALT {
      MatchedAfterUpdate(Outstanding(s), s.cores, r.id, t.cores[r.id]);
    } else if r.number == REQ_NEWCORE {
      MatchedAfterNewCore(Outstanding(s), s.cores, t.cores[|s.cores|]);
    }
  }

  /** Actions that change one core's record and nothing outstanding. */
  lemma CalmCore(s: State, a: Action, c: nat)
    requires Basic(s) && CalmInv(s) && Calm(s) && Enabled(s, a) && c < |s.cores|
    requires a.CoreEnter? || a.CoreLocal? || a.CoreLockPush? || a.CoreSleep? || a.CoreRelock? ||
             a.CoreReturn? || a.CoreLockPanic?
    requires a.core == c
    ensures CalmInv(Apply(s, a))
  {
    MatchedAfterUpdate(Outstanding(s), s.cores, c, Apply(s, a).cores[c]);
  }

  lemma CalmOs(s: State, a: Action)
    requires Basic(s) && CalmInv(s) && Calm(s) && Enabled(s, a)
    requires a.OsBoot? || a.OsLoop? || a.OsWake? || a.OsLockPanic? || a.OsStopCore? || a.OsLockKill?
    ensures CalmInv(Apply(s, a))
  {
    var t := Apply(s, a);
    assert InService(t.os) == InService(s.os);
    if a.OsBoot? && s.os.next < |s.cores| {
      MatchedAfterUpdate(Outstanding(s), s.cores, s.os.next, t.cores[s.os.next]);
    } else if a.OsStopCore? {
      MatchedAfterUpdate(Outstanding(s), s.cores, s.os.next, t.cores[s.os.next]);
    }
  }

  lemma StepCalm(s: State, a: Action)
    requires Basic(s) && Enabled(s, a) && Calm(Apply(s, a))
    requires Calm(s) ==> CalmInv(s)
    ensures Calm(s) && CalmInv(Apply(s, a))
  {
    match a
    case CorePush(c) => CalmPush(s, c);
    case OsPop => CalmPop(s);
    case OsKill => CalmKill(s);
    case OsSignal => CalmSignal(s);
    case OsServe => CalmServe(s);
    case CorePanic(c) =>
    case OsPanic =>
    case CoreEnter(c) => CalmCore(s, a, c);
    case CoreLocal(c) => CalmCore(s, a, c);
    case CoreLockPush(c, _, _) => CalmCore(s, a, c);
    case CoreSleep(c) => CalmCore(s, a, c);
    case CoreRelock(c) => CalmCore(s, a, c);
    case CoreReturn(c) => CalmCore(s, a, c);
    case CoreLockPanic(c, _) => CalmCore(s, a, c);
    case _ => CalmOs(s, a);
  }

  /** Every reachable calm state satisfies the invariant. */
  lemma {:induction false} CalmRun(ss: seq<State>, acts: seq<Action>, i: nat)
    requires Run(ss, acts) && i <= |acts|
    ensures Basic(ss[i])
    ensures Calm(ss[i]) ==> CalmInv(ss[i])
  {
    if i == 0 {
      var coreCount: nat, queueLen: nat :| ss[0] == Init(coreCount, queueLen);
      InitBasic(coreCount, queueLen);
    } else {
      CalmRun(ss, acts, i - 1);
      StepBasic(ss[i - 1], acts[i - 1]);
      if Calm(ss[i]) {
        StepCalm(ss[i - 1], acts[i - 1]);
      }
    }
  }

  /** The number of cores only grows along a run and the queue keeps its capacity. */
  lemma {:induction false} GrowthAlongRun(ss: seq<State>, acts: seq<Action>, i: nat, j: nat)
    requires Run(ss, acts) && i <= j <= |acts|
    ensures |ss[i].cores| <= |ss[j].cores|
    ensures Capacity(ss[i].hdlr.ring) == Capacity(ss[j].hdlr.ring)
    decreases j
  {
    if i < j {
      CalmRun(ss, acts, j - 1);
      StepBasic(ss[j - 1], acts[j - 1]);
      GrowthAlongRun(ss, acts, i, j - 1);
    }
  }

  // The main results

  /** In every reachable state of a panic-free run: a core is asleep, or has queued its request
      and is about to sleep with the lock held, exactly when one outstanding request carries its
      condition variable; and there is never a second one. */
  lemma AsleepIffOneOutstanding(ss: seq<State>, acts: seq<Action>, i: nat, c: nat)
    requires Run(ss, acts) && i <= |acts| && Calm(ss[i]) && c < |ss[i].cores|
    ensures Linked(ss[i].hdlr.ring)
    ensures var s := ss[i]; var out := Outstanding(s);
            (Waits(s.cores[c].phase) <==> exists k :: 0 <= k < |out| && out[k].cond == CoreCond(c))
    ensures var s := ss[i]; var out := Outstanding(s);
            forall j, k :: 0 <= j < k < |out| ==> out[j].cond != out[k].cond
    ensures ss[i].cores[c].phase.Enqueued? ==> ss[i].lock == CoreOwns(c)
  {
    CalmRun(ss, acts, i);
    var s := ss[i];
    var out := Outstanding(s);
    if Waits(s.cores[c].phase) {
      assert HasRequest(out, c);
      var k :| 0 <= k < |out| && out[k].id == c;
      assert Carries(out[k], s.cores) && out[k].cond == CoreCond(c);
    }
    forall j, k | 0 <= j < k < |out| ensures out[j].cond != out[k].cond {
      assert Carries(out[j], s.cores) && Carries(out[k], s.cores);
    }
  }

  /** The request a signal answers: the one just served, or the one kill_requests pops next. */
  function SignalTarget(s: State): Option<Request> {
    match s.os
    case Signalling(r) => Some(r)
    case KillLocked(_, pass) => if pass < s.hdlr.ring.count then Some(Front(s.hdlr.ring)) else None
    case _ => None
  }

  /** In a panic-free run every signal the OS is about to send finds the core that made the request
      already waiting on that condition variable, and wakes that core only. */
  lemma SignalFindsSleeper(ss: seq<State>, acts: seq<Action>, i: nat)
    requires Run(ss, acts) && i <= |acts| && Calm(ss[i])
    requires SignalTarget(ss[i]).Some?
    ensures var s := ss[i]; var r := SignalTarget(s).value;
            && r.cond == CoreCond(r.id) && r.id < |s.cores| && s.cores[r.id].phase.Asleep?
            && Wake(s.cores, r.cond) ==
               s.cores[r.id := s.cores[r.id].(phase := Woken(s.cores[r.id].phase.halting))]
  {
    CalmRun(ss, acts, i);
    var s := ss[i];
    var r := SignalTarget(s).value;
    if s.os.Signalling? {
      assert r in InService(s.os);
      assert Outstanding(s)[0] == r && Carries(Outstanding(s)[0], s.cores);
    } else {
      PopRemovesOldest(s.hdlr.ring);
      assert Outstanding(s)[1] == r && Carries(Outstanding(s)[1], s.cores);
    }
  }

  /** In every run, with or without panics, the id and the condition variable of an accepted request
      are those of the core that made it. */
  lemma {:induction false} AcceptedNamesItsCore(ss: seq<State>, acts: seq<Action>, i: nat)
    requires Run(ss, acts) && i <= |acts|
    ensures forall r :: r in ss[i].accepted ==> r.cond == CoreCond(r.id) && r.id < |ss[i].cores|
  {
    if i > 0 {
      AcceptedNamesItsCore(ss, acts, i - 1);
      CalmRun(ss, acts, i - 1);
      StepBasic(ss[i - 1], acts[i - 1]);
      AcceptedGrows(ss[i - 1], acts[i - 1]);
    }
  }

  lemma AcceptedGrows(s: State, a: Action)
    requires Basic(s) && Enabled(s, a)
    ensures var t := Apply(s, a);
            t.accepted == s.accepted ||
            (a.CorePush? && exists number :: t.accepted == s.accepted + [Request(number, CoreCond(a.core), a.core)])
  {
    if a.CorePush? && Apply(s, a).accepted != s.accepted {
      assert Apply(s, a).accepted == s.accepted + [Request(s.cores[a.core].phase.number, CoreCond(a.core), a.core)];
    }
  }

  /** The requests served (answered, or being answered) are a prefix of those accepted, in the
      order of acceptance; what follows in that order is what kill_requests popped, then what is
      still queued. The id of every accepted request is the core that made it. */
  lemma ServedInAcceptanceOrder(ss: seq<State>, acts: seq<Action>, i: nat)
    requires Run(ss, acts) && i <= |acts| && Calm(ss[i])
    ensures var s := ss[i];
            && s.fetched <= s.accepted
            && s.fetched == s.served + InService(s.os)
            && |s.accepted| == |s.served| + |InService(s.os)| + |s.killed| + s.hdlr.ring.count
            && Linked(s.hdlr.ring)
            && s.accepted == s.fetched + s.killed + Contents(s.hdlr.ring)
            && (OsLive(s) ==> s.killed == [])
    ensures forall r :: r in ss[i].accepted ==> r.cond == CoreCond(r.id) && r.id < |ss[i].cores|
  {
    CalmRun(ss, acts, i);
    AcceptedNamesItsCore(ss, acts, i);
  }

  // Who is left when the OS has stopped

  /** What kill_requests has done in t, n being the length of the queue when it began. */
  predicate Killing(t: State, n: nat) {
    match t.os
    case KillLocked(_, pass) =>
      !t.stop && |t.killed| == pass && t.hdlr.ring.count + pass == n && (pass > 0 ==> 2 * (pass - 1) < n)
    case Signalling(_) => t.stop && |t.killed| == (n + 1) / 2
    case LoopHead => t.stop && |t.killed| == (n + 1) / 2
    case Stopped => t.stop && |t.killed| == (n + 1) / 2
    case _ => false
  }

  lemma StepKilling(t: State, a: Action, n: nat)
    requires Basic(t) && Enabled(t, a) && Killing(t, n)
    ensures Killing(Apply(t, a), n)
  {
    if IsCoreAction(a) {
      CoreStepFrame(t, a);
      if t.os.KillLocked? {
        assert t.lock == OsOwns;
        assert !HoldsLock(t.cores[a.core].phase);
      }
    }
  }

  /** In every run, whatever the queue looks like, kill_requests pops and signals half of the n entries
      it finds, rounded up, and the OS pops nothing afterwards. */
  lemma {:induction false} KillsHalf(ss: seq<State>, acts: seq<Action>, i: nat, j: nat)
    requires Run(ss, acts) && i < j <= |acts| && acts[i] == OsLockKill
    ensures Killing(ss[j], ss[i].hdlr.ring.count)
    decreases j
  {
    if j == i + 1 {
      CalmRun(ss, acts, i);
    } else {
      KillsHalf(ss, acts, i, j - 1);
      CalmRun(ss, acts, j - 1);
      StepKilling(ss[j - 1], acts[j - 1], ss[i].hdlr.ring.count);
    }
  }

  /** Who sleeps when the OS of a panic-free run has stopped: exactly the cores with an accepted request
      that comes behind those fetched and those killed. */
  lemma AsleepWhenStoppedCalm(ss: seq<State>, acts: seq<Action>, j: nat, c: nat)
    requires Run(ss, acts) && j <= |acts| && Calm(ss[j]) && ss[j].os.Stopped? && c < |ss[j].cores|
    ensures var t := ss[j];
            Waits(t.cores[c].phase) <==>
              exists k :: |t.fetched| + |t.killed| <= k < |t.accepted| && t.accepted[k].cond == CoreCond(c)
  {
    AsleepIffOneOutstanding(ss, acts, j, c);
    ServedInAcceptanceOrder(ss, acts, j);
    var t := ss[j];
    assert Outstanding(t) == Contents(t.hdlr.ring);
    CarriedBehind(t.accepted, t.fetched + t.killed, Contents(t.hdlr.ring), CoreCond(c));
  }

  lemma CarriedBehind(all: seq<Request>, front: seq<Request>, rest: seq<Request>, cond: Cond)
    requires all == front + rest
    ensures (exists k :: 0 <= k < |rest| && rest[k].cond == cond) <==>
            (exists k :: |front| <= k < |all| && all[k].cond == cond)
  {
    if k :| 0 <= k < |rest| && rest[k].cond == cond {
      assert all[|front| + k] == rest[k];
    }
    if k :| |front| <= k < |all| && all[k].cond == cond {
      assert all[k] == rest[k - |front|];
    }
  }

  // No overflow while there are at most as many cores as queue nodes

  /** A core that is pushing is not waiting, so the queue has fewer entries than there are cores. */
  lemma PusherLeavesRoom(s: State, c: nat)
    requires Basic(s) && CalmInv(s) && c < |s.cores| && s.cores[c].phase.PushLocked?
    ensures s.hdlr.ring.count < |s.cores|
  {
    var out := Outstanding(s);
    var ids := seq(|out|, k requires 0 <= k < |out| => out[k].id);
    forall k | 0 <= k < |ids| ensures ids[k] < |s.cores| && ids[k] != c {
      assert Carries(out[k], s.cores);
    }
    Finite.DistinctBelow(ids, |s.cores|, c);
  }

  lemma StepNoOverflow(s: State, a: Action)
    requires Basic(s) && (Calm(s) ==> CalmInv(s)) && Enabled(s, a)
    requires !s.overflowed && |s.cores| <= Capacity(s.hdlr.ring)
    ensures !Apply(s, a).overflowed
  {
    if a.CorePush? && s.hdlr.more {
      PusherLeavesRoom(s, a.core);
    }
  }

  /** In any run, with or without panics, in which the cores never outnumber node_count, including
      those NEWCORE adds, no push takes the overflow branch. */
  lemma {:induction false} NoOverflow(ss: seq<State>, acts: seq<Action>, i: nat)
    requires Run(ss, acts) && i <= |acts|
    requires |ss[i].cores| <= Capacity(ss[i].hdlr.ring)
    ensures !ss[i].overflowed
  {
    if i > 0 {
      GrowthAlongRun(ss, acts, i - 1, i);
      NoOverflow(ss, acts, i - 1);
      CalmRun(ss, acts, i - 1);
      StepNoOverflow(ss[i - 1], acts[i - 1]);
    } else {
      var coreCount: nat, queueLen: nat :| ss[0] == Init(coreCount, queueLen);
    }
  }
}
