/** What survives an overflow. Overflow pushes its error over the oldest request without closing
    the handler, and from then on the queue no longer counts as full, so later pushes go on. The
    error nevertheless stays at the front until the OS fetches it, as long as there are at most
    two cores more than queue nodes: the cores behind the queued requests sleep and the
    core that overflowed has been stopped, which leaves at most one core to push. */
module RendezvousOverrun {
  import opened RequestRing
  import opened RequestHandler
  import opened Rendezvous
  import opened RendezvousCalm
  import opened RendezvousPanic
  import Finite

  /** The cores waiting for a request that the OS has not fetched. */
  ghost function QueuedCores(s: State): set<nat> {
    set c: nat | c < |s.cores| && Waits(s.cores[c].phase) && !BeingServed(s.os, c)
  }

  predicate BeingServed(os: OsPhase, c: nat) {
    InService(os) != [] && InService(os)[0].cond == CoreCond(c)
  }

  predicate Retired(core: Core) {
    core.stop && (core.phase.Running? || core.phase.Exited?)
  }

  predicate FrontIsError(q: Ring) {
    q.count > 0 && IsError(Front(q).number)
  }

  /** While the error is unfetched and pushes are still accepted: who the cores are. */
  ghost predicate Overrun(s: State) {
    && s.hdlr.ring.count > Capacity(s.hdlr.ring)
    && (s.hdlr.ring.count == Capacity(s.hdlr.ring) + 1 ==> Next(s.hdlr.ring, s.hdlr.ring.tail) == s.hdlr.ring.head)
    && (exists x :: 0 <= x < |s.cores| && Retired(s.cores[x]))
    && s.hdlr.ring.count - 1 <= |QueuedCores(s)|
  }

  ghost predicate OverflowInv(s: State) {
    s.overflowed && !Stopping(s) ==>
      FrontIsError(s.hdlr.ring) && (s.hdlr.more ==> Overrun(s))
  }

  predicate FewCores(s: State) {
    1 <= Capacity(s.hdlr.ring) && |s.cores| <= Capacity(s.hdlr.ring) + 2
  }

  // The overflow itself

  lemma {:induction false} OwnersAreQueued(rs: seq<Request>, owners: set<nat>)
    requires forall k :: 0 <= k < |rs| ==> rs[k].id in owners
    requires forall j, k :: 0 <= j < k < |rs| ==> rs[j].id != rs[k].id
    ensures |rs| <= |owners|
  {
    if rs != [] {
      var n := |rs| - 1;
      OwnersAreQueued(rs[..n], owners - {rs[n].id});
    }
  }

  /** In a calm state the owners of the queued requests wait, are distinct, and none is served. */
  lemma QueuedOwnersWait(s: State, k: nat)
    requires CalmInv(s) && k < s.hdlr.ring.count
    ensures var r := Contents(s.hdlr.ring)[k];
            r.id < |s.cores| && Waits(s.cores[r.id].phase) && !BeingServed(s.os, r.id)
    ensures forall j :: 0 <= j < k ==>
              Contents(s.hdlr.ring)[j].id != Contents(s.hdlr.ring)[k].id
  {
    var queued := Contents(s.hdlr.ring);
    var out, first := Outstanding(s), |InService(s.os)|;
    assert out[first + k] == queued[k] && Carries(out[first + k], s.cores);
    if first > 0 {
      assert out[0] == InService(s.os)[0] && Carries(out[0], s.cores);
    }
    forall j | 0 <= j < k ensures queued[j].id != queued[k].id {
      assert out[first + j] == queued[j];
    }
  }

  lemma CalmQueueFitsCores(s: State)
    requires CalmInv(s)
    ensures s.hdlr.ring.count <= |QueuedCores(s)|
  {
    var queued := Contents(s.hdlr.ring);
    forall k | 0 <= k < |queued|
      ensures queued[k].id in QueuedCores(s)
      ensures forall j :: 0 <= j < k ==> queued[j].id != queued[k].id
    {
      QueuedOwnersWait(s, k);
    }
    OwnersAreQueued(queued, QueuedCores(s));
  }

  lemma OverflowHappens(s: State, c: nat)
    requires CalmInv(s) && s.hdlr.more && Enabled(s, CorePush(c))
    requires 1 <= Capacity(s.hdlr.ring) && Full(s.hdlr.ring)
    ensures OverflowInv(Apply(s, CorePush(c)))
  {
    var t := Apply(s, CorePush(c));
    CalmQueueFitsCores(s);
    assert QueuedCores(t) == QueuedCores(s);
    assert Retired(t.cores[c]);
    assert t.hdlr.ring == PanicPush(s.hdlr.ring, ErrorRequest(REQUEST_BUFFER_OVERFLOW));
    assert Next(t.hdlr.ring, t.hdlr.ring.tail) == t.hdlr.ring.head;
  }

  // Steps after an overflow

  /** A pushing core is neither queued nor retired, so only the first push fits the core count. */
  lemma PusherIsTheLastCore(s: State, c: nat)
    requires Overrun(s) && FewCores(s) && Enabled(s, CorePush(c))
    ensures s.hdlr.ring.count == Capacity(s.hdlr.ring) + 1
  {
    var x :| 0 <= x < |s.cores| && Retired(s.cores[x]);
    assert QueuedCores(s) <= Finite.Below(|s.cores|) - {c, x};
    Finite.SubsetSize(QueuedCores(s), Finite.Below(|s.cores|) - {c, x});
  }

  lemma OverrunPush(s: State, c: nat)
    requires Overrun(s) && FewCores(s) && FrontIsError(s.hdlr.ring) && s.hdlr.more
    requires Enabled(s, CorePush(c)) && !BeingServed(s.os, c)
    ensures Overrun(Apply(s, CorePush(c))) && FrontIsError(Apply(s, CorePush(c)).hdlr.ring)
  {
    var t := Apply(s, CorePush(c));
    PusherIsTheLastCore(s, c);
    assert QueuedCores(t) == QueuedCores(s) + {c};
    var x :| 0 <= x < |s.cores| && Retired(s.cores[x]);
    assert Retired(t.cores[x]);
  }

  /** Everything but a push keeps the same cores queued and the retired core retired. */
  lemma OverrunCore(s: State, a: Action)
    requires Overrun(s) && Enabled(s, a) && IsCoreAction(a) && !a.CorePush? && !a.CorePanic?
    ensures Overrun(Apply(s, a)) && Apply(s, a).hdlr == s.hdlr
  {
    var t := Apply(s, a);
    CoreStepFrame(s, a);
    OtherCoreActionsKeepWaiting(s, a);
    assert QueuedCores(t) == QueuedCores(s);
    var x :| 0 <= x < |s.cores| && Retired(s.cores[x]);
    assert Retired(t.cores[x]);
  }

  lemma OtherCoreActionsKeepWaiting(s: State, a: Action)
    requires Enabled(s, a) && IsCoreAction(a) && !a.CorePush? && !a.CorePanic?
    ensures var t, c := Apply(s, a), a.core;
            && t.hdlr == s.hdlr && c < |s.cores| && c < |t.cores|
            && (Waits(t.cores[c].phase) <==> Waits(s.cores[c].phase))
            && (Retired(s.cores[c]) ==> Retired(t.cores[c]))
  {
  }

  /** The OS wakes only the core it serves, and fetches nothing while the error is in front. */
  lemma OverrunOs(s: State, a: Action)
    requires Overrun(s) && BootOrder(s) && Enabled(s, a) && !IsCoreAction(a) && !a.OsPop? && !a.OsPanic?
    requires !Stopping(s) && !Stopping(Apply(s, a))
    ensures Overrun(Apply(s, a)) && Apply(s, a).hdlr == s.hdlr
  {
    var t := Apply(s, a);
    OsStepCores(s, a);
    QuietOsActionsKeepQueued(s, a);
    assert QueuedCores(s) <= QueuedCores(t);
    Finite.SubsetSize(QueuedCores(s), QueuedCores(t));
    var x :| 0 <= x < |s.cores| && Retired(s.cores[x]);
    assert CoreKept(s.cores[x], t.cores[x]) && PhaseByOs(s.cores[x].phase, t.cores[x].phase);
    assert Retired(t.cores[x]);
  }

  lemma QuietOsActionsKeepQueued(s: State, a: Action)
    requires BootOrder(s) && Enabled(s, a) && !IsCoreAction(a) && !a.OsPop? && !a.OsPanic?
    requires !Stopping(s) && !Stopping(Apply(s, a))
    ensures Apply(s, a).hdlr == s.hdlr
    ensures forall c :: 0 <= c < |s.cores| && Waits(s.cores[c].phase) && !BeingServed(s.os, c) ==>
              c < |Apply(s, a).cores| && Apply(s, a).cores[c].phase == s.cores[c].phase
    ensures forall c: nat :: BeingServed(Apply(s, a).os, c) ==> BeingServed(s.os, c)
  {
  }

  /** The core whose request the OS serves sleeps until it is signalled. */
  ghost predicate ServedSleeps(s: State) {
    !Stopping(s) ==>
      forall c: nat :: BeingServed(s.os, c) ==> c < |s.cores| && s.cores[c].phase.Asleep?
  }

  /** What the OS may fetch next, while it is not stopping: an error, unless the run is calm. */
  predicate Guarded(s: State) {
    !Calm(s) && !Stopping(s) ==> FrontIsError(s.hdlr.ring)
  }

  lemma StepServedSleeps(s: State, a: Action)
    requires Basic(s) && (Calm(s) ==> CalmInv(s)) && Guarded(s) && ServedSleeps(s) && Enabled(s, a)
    ensures ServedSleeps(Apply(s, a))
  {
    if Stopping(s) {
      StoppingIsFinal(s, a);
    } else if IsCoreAction(a) {
      CoreStepFrame(s, a);
    } else if a.OsPop? && Calm(s) {
      CalmPop(s);
      forall c: nat | BeingServed(Apply(s, a).os, c)
        ensures c < |s.cores| && Apply(s, a).cores[c].phase.Asleep?
      {
        var r := InService(Apply(s, a).os)[0];
        assert Carries(Outstanding(Apply(s, a))[0], s.cores);
      }
    } else if !a.OsPop? && !Stopping(Apply(s, a)) {
      QuietOsActions(s, a);
    }
  }

  lemma QuietOsActions(s: State, a: Action)
    requires BootOrder(s) && Enabled(s, a) && !IsCoreAction(a) && !a.OsPop?
    requires !Stopping(s) && !Stopping(Apply(s, a))
    ensures forall c: nat :: BeingServed(Apply(s, a).os, c) ==>
              BeingServed(s.os, c) &&
              (c < |s.cores| && s.cores[c].phase.Asleep? ==>
                 Apply(s, a).cores[c].phase == s.cores[c].phase)
  {
  }

  lemma StoppingIsFinal(s: State, a: Action)
    requires Enabled(s, a) && Stopping(s)
    ensures Stopping(Apply(s, a))
  {
  }

  lemma StepOverflowInv(s: State, a: Action)
    requires Basic(s) && (Calm(s) ==> CalmInv(s)) && ServedSleeps(s) && Enabled(s, a)
    requires FewCores(s) && OverflowInv(s)
    ensures OverflowInv(Apply(s, a))
  {
    var t := Apply(s, a);
    if t.overflowed && !Stopping(t) {
      if !s.overflowed {
        OverflowHappens(s, a.core);
      } else {
        if Stopping(s) {
          StoppingIsFinal(s, a);
        }
        StepOverrun(s, a);
      }
    }
  }

  lemma StepOverrun(s: State, a: Action)
    requires Basic(s) && ServedSleeps(s) && Enabled(s, a) && FewCores(s)
    requires !Stopping(s) && !Stopping(Apply(s, a))
    requires FrontIsError(s.hdlr.ring) && (s.hdlr.more ==> Overrun(s))
    ensures var t := Apply(s, a);
            FrontIsError(t.hdlr.ring) && (t.hdlr.more ==> Overrun(t))
  {
    assert !a.OsPop?;
    if a.CorePanic? || a.OsPanic? {
    } else if !s.hdlr.more {
      StepLeavesQueue(s, a);
    } else if a.CorePush? {
      OverrunPush(s, a.core);
    } else if IsCoreAction(a) {
      OverrunCore(s, a);
    } else {
      OverrunOs(s, a);
    }
  }
}
