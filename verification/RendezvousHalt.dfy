/** active_core_count against the cores that are really active, in runs with or without panics. */
module RendezvousHalt {
  import opened RequestRing
  import opened RequestHandler
  import opened Rendezvous
  import opened RendezvousCalm
  import opened RendezvousPanic
  import opened RendezvousOverrun

  /** The booted cores whose halt request has not been served. */
  ghost function ActiveCores(s: State): set<nat> {
    set c: nat | c < |s.cores| && !s.cores[c].phase.Unbooted? && c !in s.halted
  }

  /** Once its halt is served a core is told to stop before it can run again, so it never gets
      back to a point where it could make another request. */
  predicate Halting(s: State, c: nat) {
    && c < |s.cores| && s.cores[c].stop
    && match s.cores[c].phase
       case Asleep(_) => s.os.Signalling? && s.os.req.cond == CoreCond(c)
       case Woken(_) => true
       case Reacquired(_) => true
       case Running => true
       case Exited => true
       case _ => false
  }

  /** The requester of the ordinary request the OS is about to serve. */
  predicate FreshRequester(s: State) {
    s.os.Serving? && !IsError(s.os.req.number) ==>
      var r := s.os.req;
      && r.cond == CoreCond(r.id) && r.id < |s.cores|
      && s.cores[r.id].phase.Asleep? && r.id !in s.halted
  }

  ghost predicate HaltInv(s: State) {
    && s.active == |ActiveCores(s)|
    && (forall c :: c in s.halted ==> Halting(s, c))
    && FreshRequester(s)
  }

  /** Nothing queued in a calm state belongs to a halted core. */
  lemma QueuedIsNotHalted(s: State)
    requires LockDiscipline(s) && CalmInv(s) && HaltInv(s)
    requires s.hdlr.ring.count > 0 && s.os.PopLocked?
    ensures var r := Front(s.hdlr.ring);
            r.cond == CoreCond(r.id) && r.id < |s.cores| && s.cores[r.id].phase.Asleep? &&
            r.id !in s.halted
  {
    PopRemovesOldest(s.hdlr.ring);
    assert Carries(Outstanding(s)[0], s.cores);
  }

  /** No other action boots a core or serves a halt. */
  lemma OsKeepsBooted(s: State, a: Action)
    requires Enabled(s, a) && !IsCoreAction(a)
    requires !(a.OsBoot? && s.os.next < |s.cores|)
    requires !(a.OsServe? && s.os.req.number in {REQ_HALT, REQ_NEWCORE})
    ensures var t := Apply(s, a);
            && t.active == s.active && t.halted == s.halted && |t.cores| == |s.cores|
            && forall c :: 0 <= c < |s.cores| ==>
                 (t.cores[c].phase.Unbooted? <==> s.cores[c].phase.Unbooted?)
  {
  }

  lemma BootActive(s: State)
    requires Basic(s) && HaltInv(s) && Enabled(s, OsBoot) && s.os.next < |s.cores|
    ensures Apply(s, OsBoot).active == |ActiveCores(Apply(s, OsBoot))|
  {
    assert ActiveCores(Apply(s, OsBoot)) == ActiveCores(s) + {s.os.next};
  }

  lemma ServeHaltActive(s: State)
    requires BootOrder(s) && s.active == |ActiveCores(s)| && FreshRequester(s)
    requires Enabled(s, OsServe) && s.os.req.number == REQ_HALT
    ensures s.active > 0
    ensures Apply(s, OsServe).active == |ActiveCores(Apply(s, OsServe))|
  {
    var c := s.os.req.id;
    assert c in ActiveCores(s);
    assert ActiveCores(Apply(s, OsServe)) == ActiveCores(s) - {c};
  }

  lemma ServeNewCoreActive(s: State)
    requires s.active == |ActiveCores(s)| && |s.cores| !in s.halted
    requires Enabled(s, OsServe) && s.os.req.number == REQ_NEWCORE
    ensures Apply(s, OsServe).active == |ActiveCores(Apply(s, OsServe))|
  {
    assert ActiveCores(Apply(s, OsServe)) == ActiveCores(s) + {|s.cores|};
  }

  lemma StepActive(s: State, a: Action)
    requires Basic(s) && HaltInv(s) && Enabled(s, a)
    ensures Apply(s, a).active == |ActiveCores(Apply(s, a))|
  {
    if a.OsBoot? && s.os.next < |s.cores| {
      BootActive(s);
    } else if a.OsServe? && s.os.req.number == REQ_HALT {
      ServeHaltActive(s);
    } else if a.OsServe? && s.os.req.number == REQ_NEWCORE {
      ServeNewCoreActive(s);
    } else {
      if IsCoreAction(a) {
        CoreStepFrame(s, a);
      } else {
        OsKeepsBooted(s, a);
      }
      assert ActiveCores(Apply(s, a)) == ActiveCores(s);
    }
  }

  lemma CoreStepHalting(s: State, a: Action, c: nat)
    requires Basic(s) && Enabled(s, a) && IsCoreAction(a) && Halting(s, c)
    ensures Halting(Apply(s, a), c)
  {
    CoreStepFrame(s, a);
  }

  lemma OsStepHalting(s: State, a: Action, c: nat)
    requires Basic(s) && Enabled(s, a) && !IsCoreAction(a) && Halting(s, c)
    ensures Halting(Apply(s, a), c)
  {
    OsStepCores(s, a);
    assert CoreKept(s.cores[c], Apply(s, a).cores[c]);
    assert PhaseByOs(s.cores[c].phase, Apply(s, a).cores[c].phase);
  }

  lemma StepHalting(s: State, a: Action)
    requires Basic(s) && HaltInv(s) && Enabled(s, a)
    ensures forall c :: c in Apply(s, a).halted ==> Halting(Apply(s, a), c)
  {
    forall c | c in Apply(s, a).halted ensures Halting(Apply(s, a), c) {
      if c in s.halted {
        if IsCoreAction(a) {
          CoreStepHalting(s, a, c);
        } else {
          OsStepHalting(s, a, c);
        }
      }
    }
  }

  /** A core action cannot wake the requester or end the service. */
  lemma CoreStepFresh(s: State, a: Action)
    requires FreshRequester(s) && Enabled(s, a) && IsCoreAction(a)
    ensures FreshRequester(Apply(s, a))
  {
    CoreStepFrame(s, a);
  }

  /** Only OsPop enters Serving, and then the fetched request is an error or a queued request. */
  lemma OsStepFresh(s: State, a: Action)
    requires Basic(s) && (Calm(s) ==> CalmInv(s)) && Guarded(s) && HaltInv(s)
    requires Enabled(s, a) && !IsCoreAction(a)
    ensures FreshRequester(Apply(s, a))
  {
    if a.OsPop? {
      if s.hdlr.ring.count > 0 && Calm(s) {
        QueuedIsNotHalted(s);
      }
    } else {
      assert !Apply(s, a).os.Serving?;
    }
  }

  lemma StepHaltInv(s: State, a: Action)
    requires Basic(s) && (Calm(s) ==> CalmInv(s)) && Guarded(s) && HaltInv(s) && Enabled(s, a)
    ensures HaltInv(Apply(s, a))
  {
    StepActive(s, a);
    StepHalting(s, a);
    if IsCoreAction(a) {
      CoreStepFresh(s, a);
    } else {
      OsStepFresh(s, a);
    }
  }

  lemma InitHaltInv(coreCount: nat, queueLen: nat)
    ensures HaltInv(Init(coreCount, queueLen))
  {
    assert ActiveCores(Init(coreCount, queueLen)) == {};
  }

  /** The runs the counter can be trusted in: no push has overflowed yet, or there are at most two
      cores more than queue nodes. */
  predicate Sound(s: State) {
    !s.overflowed || FewCores(s)
  }

  ghost predicate RunInv(s: State) {
    && Basic(s) && PanicInv(s) && (Calm(s) ==> CalmInv(s))
    && (s.panic.Some? ==> IsError(s.panic.value))
  }

  ghost predicate AllInv(s: State) {
    && RunInv(s)
    && (FewCores(s) ==> OverflowInv(s))
    && (Sound(s) ==> ServedSleeps(s) && HaltInv(s))
  }

  lemma StepRunInv(s: State, a: Action)
    requires RunInv(s) && Enabled(s, a)
    ensures RunInv(Apply(s, a))
  {
    StepBasic(s, a);
    StepPanicInv(s, a);
    if Calm(Apply(s, a)) {
      StepCalm(s, a);
    }
  }

  lemma SoundBefore(s: State, a: Action)
    requires Basic(s) && Enabled(s, a)
    ensures s.overflowed ==> Apply(s, a).overflowed
    ensures FewCores(Apply(s, a)) ==> FewCores(s)
    ensures Sound(Apply(s, a)) ==> Sound(s)
  {
    StepBasic(s, a);
  }

  lemma SoundIsGuarded(s: State)
    requires AllInv(s) && Sound(s)
    ensures Guarded(s)
  {
  }

  lemma StepAllInv(s: State, a: Action)
    requires AllInv(s) && Enabled(s, a)
    ensures AllInv(Apply(s, a))
  {
    StepRunInv(s, a);
    SoundBefore(s, a);
    if FewCores(Apply(s, a)) {
      StepOverflowInv(s, a);
    }
    if Sound(Apply(s, a)) {
      SoundIsGuarded(s);
      StepServedSleeps(s, a);
      StepHaltInv(s, a);
    }
  }

  lemma InitAllInv(coreCount: nat, queueLen: nat)
    ensures AllInv(Init(coreCount, queueLen))
  {
    InitBasic(coreCount, queueLen);
    InitHaltInv(coreCount, queueLen);
  }

  lemma {:induction false} HaltRun(ss: seq<State>, acts: seq<Action>, i: nat)
    requires Run(ss, acts) && i <= |acts|
    ensures AllInv(ss[i])
  {
    if i == 0 {
      var coreCount: nat, queueLen: nat :| ss[0] == Init(coreCount, queueLen);
      InitAllInv(coreCount, queueLen);
    } else {
      HaltRun(ss, acts, i - 1);
      StepAllInv(ss[i - 1], acts[i - 1]);
    }
  }

  // The main results

  /** While no push has overflowed, and beyond that as long as there are at most two cores more
      than queue nodes, active_core_count is the number of booted cores whose halt has not been
      served. */
  lemma ActiveCountIsExact(ss: seq<State>, acts: seq<Action>, i: nat)
    requires Run(ss, acts) && i <= |acts| && Sound(ss[i])
    ensures ss[i].active == |ActiveCores(ss[i])|
    ensures forall c :: c in ss[i].halted ==> c < |ss[i].cores| && ss[i].cores[c].stop
  {
    HaltRun(ss, acts, i);
  }

  /** Serving a halt never underflows the counter; the halted core is the one asleep on this
      request, it had not been halted before, and it is told to stop before it is woken. */
  lemma HaltServedOncePerCore(ss: seq<State>, acts: seq<Action>, i: nat)
    requires Run(ss, acts) && i < |acts| && Sound(ss[i])
    requires acts[i] == OsServe && ss[i].os.req.number == REQ_HALT
    ensures var s, t := ss[i], ss[i + 1]; var c := s.os.req.id;
            && s.active > 0 && t.active == s.active - 1
            && c < |s.cores| && c !in s.halted && t.halted == s.halted + {c}
            && s.cores[c].phase.Asleep? && t.cores[c].phase.Asleep? && t.cores[c].stop
  {
    HaltRun(ss, acts, i);
    ServeHaltActive(ss[i]);
  }

  /** A core whose halt has been served can only finish the call it sleeps in and exit: no step by
      which it would make a request or report an error is ever open to it again. */
  lemma HaltedCoreMakesNoRequest(ss: seq<State>, acts: seq<Action>, i: nat, c: nat)
    requires Run(ss, acts) && i <= |acts| && Sound(ss[i]) && c in ss[i].halted
    ensures forall a: Action ::
              (a.CoreLockPush? || a.CorePush? || a.CoreLockPanic? || a.CorePanic?) && a.core == c ==> !Enabled(ss[i], a)
    ensures c < |ss[i].cores| && (ss[i].cores[c].phase.Running? ==> Apply(ss[i], CoreEnter(c)).cores[c].phase.Exited?)
  {
    HaltRun(ss, acts, i);
    assert Halting(ss[i], c);
  }
}
