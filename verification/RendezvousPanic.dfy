/** What the first merry_requestHdlr_panic does to the rest of a run, whatever state it strikes. */
module RendezvousPanic {
  import opened Wrappers
  import opened RequestRing
  import opened RequestHandler
  import opened Rendezvous
  import opened RendezvousCalm

  predicate ErrorPending(s: State, error: nat) {
    s.hdlr.ring.count > 0 && Front(s.hdlr.ring) == ErrorRequest(error)
  }

  /** The OS is on its way to the end of its loop and fetches nothing more. */
  predicate Stopping(s: State) {
    || (s.os.Serving? && IsError(s.os.req.number))
    || s.os.StopCores? || s.os.KillLocked? || s.os.Stopped?
    || ((s.os.Signalling? || s.os.LoopHead?) && s.stop)
  }

  /** How many requests left the queue between the two states. */
  function Popped(s: State, t: State): int {
    |t.fetched| - |s.fetched| + |t.killed| - |s.killed|
  }

  /** `t` comes after `s`, the state right after the first panic. */
  ghost predicate AfterPanic(s: State, t: State, error: nat) {
    && !t.hdlr.more && t.panic == Some(error)
    && t.accepted == s.accepted
    && s.killed <= t.killed
    && (t.fetched == s.fetched || t.fetched == s.fetched + [ErrorRequest(error)])
    && t.hdlr.ring == PopTimes(s.hdlr.ring, Popped(s, t))
    && (t.fetched == s.fetched && |t.killed| > |s.killed| ==>
          t.killed[|s.killed|] == ErrorRequest(error))
    && (Popped(s, t) > 0 ==> Stopping(t))
  }

  lemma PanicStrikes(s: State, a: Action, error: nat)
    requires Basic(s) && Enabled(s, a)
    requires s.panic.None? && Apply(s, a).panic == Some(error)
    ensures var t := Apply(s, a);
            AfterPanic(t, t, error) && ErrorPending(t, error) && IsError(error) && !t.hdlr.more
  {
    assert a.CorePanic? || a.OsPanic?;
  }

  /** Actions other than the two pops leave the closed queue alone. */
  lemma StepLeavesQueue(t: State, a: Action)
    requires Enabled(t, a) && !t.hdlr.more && t.panic.Some?
    requires !a.OsPop? && !(a.OsKill? && t.os.pass < t.hdlr.ring.count)
    ensures var u := Apply(t, a);
            && u.hdlr == t.hdlr && u.panic == t.panic && u.accepted == t.accepted
            && u.fetched == t.fetched && u.killed == t.killed
            && (Stopping(t) ==> Stopping(u))
  {
  }

  lemma StepAfterPanic(s: State, t: State, a: Action, error: nat)
    requires AfterPanic(s, t, error) && ErrorPending(s, error) && IsError(error)
    requires Enabled(t, a)
    ensures AfterPanic(s, Apply(t, a), error)
  {
    if a.OsPop? {
      PopAfterPanic(s, t, error);
    } else if a.OsKill? && t.os.pass < t.hdlr.ring.count {
      KillAfterPanic(s, t, error);
    } else {
      StepLeavesQueue(t, a);
    }
  }

  lemma PopAfterPanic(s: State, t: State, error: nat)
    requires AfterPanic(s, t, error) && ErrorPending(s, error) && IsError(error)
    requires Enabled(t, OsPop)
    ensures AfterPanic(s, Apply(t, OsPop), error)
  {
    assert Popped(s, t) == 0;
    assert Apply(t, OsPop).fetched == s.fetched + [ErrorRequest(error)];
  }

  lemma KillAfterPanic(s: State, t: State, error: nat)
    requires AfterPanic(s, t, error) && ErrorPending(s, error)
    requires Enabled(t, OsKill) && t.os.pass < t.hdlr.ring.count
    ensures AfterPanic(s, Apply(t, OsKill), error)
  {
  }

  /** From the first panic on, in whatever reachable state it strikes: handle_more stays false;
      the queue changes only by pops, so no request and no second panic enters it; the next pop,
      by the OS loop or by kill_requests, returns that first error; the OS fetches at most this
      error, so it serves no further ordinary request beyond one already in service, and from
      that fetch on it only stops. */
  lemma {:induction false} FirstPanicIsFinal(
      ss: seq<State>, acts: seq<Action>, i: nat, j: nat, error: nat)
    requires Run(ss, acts) && i < j <= |acts|
    requires ss[i].panic.None? && ss[i + 1].panic == Some(error)
    ensures AfterPanic(ss[i + 1], ss[j], error)
    ensures ErrorPending(ss[i + 1], error) && IsError(error)
    decreases j
  {
    CalmRun(ss, acts, i);
    PanicStrikes(ss[i], acts[i], error);
    if i + 1 < j {
      FirstPanicIsFinal(ss, acts, i, j - 1, error);
      CalmRun(ss, acts, j - 1);
      StepAfterPanic(ss[i + 1], ss[j - 1], acts[j - 1], error);
    }
  }

  /** The invariant form: after a panic, its error is at the front of the queue or the OS is
      already stopping. */
  ghost predicate PanicInv(s: State) {
    s.panic.Some? ==> ErrorPending(s, s.panic.value) || Stopping(s)
  }

  lemma StepPanicInv(s: State, a: Action)
    requires Basic(s) && PanicInv(s) && Enabled(s, a)
    requires s.panic.Some? ==> IsError(s.panic.value)
    ensures PanicInv(Apply(s, a))
    ensures Apply(s, a).panic.Some? ==> IsError(Apply(s, a).panic.value)
  {
  }

  // The oldest request is lost

  /** The step makes an emergency push: the first panic of the run, or an overflow. */
  predicate Emergency(s: State, a: Action)
    requires Enabled(s, a)
  {
    Calm(s) && !Calm(Apply(s, a))
  }

  function EmergencyError(s: State, a: Action): nat
    requires Enabled(s, a)
  {
    if Apply(s, a).panic.Some? then Apply(s, a).panic.value else REQUEST_BUFFER_OVERFLOW
  }

  /** The price of an emergency push on a non-empty queue, in any calm state: the core whose request was
      the oldest one queued still waits, and the only entry of the queue that can carry its condition
      variable is the last one counted now. That entry is whatever the spare node still holds from
      an earlier request, so it carries the variable exactly when that request was this core's. */
  lemma EmergencyLosesOldestRequest(s: State, a: Action)
    requires Basic(s) && CalmInv(s) && Enabled(s, a) && Emergency(s, a)
    requires s.hdlr.ring.count > 0
    ensures var t, q := Apply(s, a), s.hdlr.ring; var lost := Front(q).id;
            && Front(q).cond == CoreCond(lost)
            && lost < |t.cores| && Waits(t.cores[lost].phase)
            && t.hdlr.ring.count == q.count + 1 <= |t.hdlr.ring.slots|
            && forall i :: 0 <= i < t.hdlr.ring.count ==>
                 (t.hdlr.ring.slots[Slot(t.hdlr.ring, i)].cond == CoreCond(lost) <==>
                    i == q.count && q.slots[q.tail].cond == CoreCond(lost))
  {
    var q := s.hdlr.ring;
    var err := ErrorRequest(EmergencyError(s, a));
    var p := PanicPush(q, err);
    EmergencyEffect(s, a);
    PanicPushBreaksLink(q, err);
    QueuedOnce(s, 0);
    assert Slot(p, 0) == q.head && Slot(p, q.count) == q.tail;
    forall i | 1 <= i < q.count
      ensures Contents(q)[i].cond != CoreCond(Front(q).id)
    {
      QueuedOnce(s, i);
    }
  }

  /** An emergency push on an empty queue costs no core its request: whoever waits is still served. */
  lemma EmergencyOnEmptyQueueLosesNone(s: State, a: Action, c: nat)
    requires Basic(s) && CalmInv(s) && Enabled(s, a) && Emergency(s, a)
    requires s.hdlr.ring.count == 0
    requires c < |Apply(s, a).cores| && Waits(Apply(s, a).cores[c].phase)
    ensures InService(Apply(s, a).os) == InService(s.os)
    ensures exists r :: r in InService(Apply(s, a).os) && r.cond == CoreCond(c)
  {
    EmergencyAddsNoWaiter(s, a, c);
    var mine := InService(s.os);
    assert Outstanding(s) == mine;
    assert HasRequest(mine, c);
    var k :| 0 <= k < |mine| && mine[k].id == c;
    assert Carries(mine[k], s.cores);
    assert mine[k] in mine && mine[k].cond == CoreCond(c);
  }

  lemma EmergencyAddsNoWaiter(s: State, a: Action, c: nat)
    requires Enabled(s, a) && Emergency(s, a)
    requires c < |Apply(s, a).cores| && Waits(Apply(s, a).cores[c].phase)
    ensures c < |s.cores| && Waits(s.cores[c].phase)
    ensures InService(Apply(s, a).os) == InService(s.os)
  {
    assert a.CorePanic? || a.OsPanic? || a.CorePush?;
    if a.OsPanic? {
      assert Apply(s, a).cores == s.cores;
    }
  }

  lemma EmergencyEffect(s: State, a: Action)
    requires Basic(s) && Enabled(s, a) && Emergency(s, a)
    ensures Apply(s, a).hdlr.ring == PanicPush(s.hdlr.ring, ErrorRequest(EmergencyError(s, a)))
    ensures |Apply(s, a).cores| == |s.cores|
    ensures forall c :: 0 <= c < |s.cores| && Waits(s.cores[c].phase) ==>
              Apply(s, a).cores[c] == s.cores[c]
  {
    assert a.CorePanic? || a.OsPanic? || a.CorePush?;
  }

  lemma QueuedOnce(s: State, i: nat)
    requires CalmInv(s) && i < s.hdlr.ring.count
    ensures var q := s.hdlr.ring;
            && Contents(q)[0] == Front(q)
            && Carries(Contents(q)[i], s.cores)
            && (i > 0 ==> Contents(q)[i].id != Front(q).id)
  {
    PopRemovesOldest(s.hdlr.ring);
    var out, first := Outstanding(s), |InService(s.os)|;
    assert out[first] == Contents(s.hdlr.ring)[0];
    assert out[first + i] == Contents(s.hdlr.ring)[i];
  }
}
