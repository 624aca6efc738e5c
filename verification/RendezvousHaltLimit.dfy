/** The bound of RendezvousHalt is exact: with three cores more than queue nodes, or two cores and no
    node, some run serves one halt request twice, and active_core_count falls below the number of
    active cores. */
module RendezvousHaltLimit {
  import opened RequestRing
  import opened RequestHandler
  import opened Rendezvous
  import opened RendezvousCalm
  import opened RendezvousOverflow
  import opened RendezvousOverrun
  import opened RendezvousHalt
  import Finite

  /** After the overflow two more cores have pushed: one into the spare node and one, asking to
      halt, over the error at the front. */
  ghost predicate Wrapped(s: State, coreCount: nat, queueLen: nat) {
    && |s.cores| == coreCount && s.lock == Nobody && s.os == Booting(coreCount) && !s.stop
    && s.active == coreCount && s.halted == {}
    && (forall c :: 0 <= c < coreCount ==> !s.cores[c].phase.Unbooted?)
    && TwiceAround(s.hdlr.ring, queueLen)
    && s.hdlr.ring.head == 0 && s.hdlr.ring.count == queueLen + 3
  }

  predicate TwiceAround(q: Ring, queueLen: nat) {
    && Capacity(q) == queueLen
    && q.slots[0].number == REQ_HALT && q.slots[0].id == queueLen + 2
    && forall i :: 1 <= i <= queueLen ==> q.slots[i].number == REQ_MEM
  }

  lemma WrapAround(coreCount: nat, queueLen: nat)
    returns (ss: seq<State>, acts: seq<Action>)
    requires 1 <= queueLen && queueLen + 3 <= coreCount
    ensures RunOf(ss, acts, coreCount, queueLen)
    ensures Wrapped(ss[|acts|], coreCount, queueLen)
  {
    var s;
    ss, acts, s := OverflowReachable(coreCount, queueLen);
    ss, acts := ToSleep(ss, acts, coreCount, queueLen, queueLen + 1, REQ_MEM);
    ss, acts := ToSleep(ss, acts, coreCount, queueLen, queueLen + 2, REQ_HALT);
  }

  /** One turn of the OS loop: fetch, serve and answer the request at the front. */
  lemma ServeFront(ss: seq<State>, acts: seq<Action>, coreCount: nat, queueLen: nat)
    returns (ss': seq<State>, acts': seq<Action>)
    requires RunOf(ss, acts, coreCount, queueLen)
    requires var s := ss[|acts|];
             && s.os.LoopHead? && s.lock == Nobody && !s.stop && s.active > 0 && |s.cores| > 1
             && s.hdlr.ring.count > 0 && Front(s.hdlr.ring).number in {REQ_HALT, REQ_MEM}
             && (forall c :: 0 <= c < |s.cores| ==> !s.cores[c].phase.Unbooted?)
    ensures RunOf(ss', acts', coreCount, queueLen)
    ensures var s, s' := ss[|acts|], ss'[|acts'|]; var r := Front(s.hdlr.ring);
            && s'.os.LoopHead? && s'.lock == Nobody && !s'.stop && |s'.cores| == |s.cores|
            && s'.hdlr == AfterPop(s.hdlr)
            && s'.active == (if r.number == REQ_HALT then s.active - 1 else s.active)
            && s'.halted == (if r.number == REQ_HALT then s.halted + {r.id} else s.halted)
            && (forall c :: 0 <= c < |s'.cores| ==> !s'.cores[c].phase.Unbooted?)
  {
    ss', acts' := Do(ss, acts, coreCount, queueLen, OsLoop);
    ss', acts' := Do(ss', acts', coreCount, queueLen, OsPop);
    ss', acts' := Do(ss', acts', coreCount, queueLen, OsServe);
    ss', acts' := Do(ss', acts', coreCount, queueLen, OsSignal);
  }

  /** The halt has been served once and `i` requests behind it as well. */
  ghost predicate Rolling(s: State, coreCount: nat, queueLen: nat, i: nat) {
    && |s.cores| == coreCount && s.lock == Nobody && s.os.LoopHead? && !s.stop
    && s.active == coreCount - 1 && s.halted == {queueLen + 2}
    && (forall c :: 0 <= c < coreCount ==> !s.cores[c].phase.Unbooted?)
    && TwiceAround(s.hdlr.ring, queueLen)
    && i <= queueLen
    && s.hdlr.ring.head == (if i == queueLen then 0 else i + 1)
    && s.hdlr.ring.count == queueLen + 2 - i
  }

  lemma {:induction false} Roll(coreCount: nat, queueLen: nat, i: nat)
    returns (ss: seq<State>, acts: seq<Action>)
    requires 1 <= queueLen && queueLen + 3 <= coreCount && i <= queueLen
    ensures RunOf(ss, acts, coreCount, queueLen)
    ensures Rolling(ss[|acts|], coreCount, queueLen, i)
  {
    if i == 0 {
      ss, acts := WrapAround(coreCount, queueLen);
      ss, acts := Do(ss, acts, coreCount, queueLen, OsBoot);
      ss, acts := ServeFront(ss, acts, coreCount, queueLen);
    } else {
      ss, acts := Roll(coreCount, queueLen, i - 1);
      ss, acts := ServeFront(ss, acts, coreCount, queueLen);
    }
  }

  lemma HaltServedTwice(coreCount: nat, queueLen: nat)
    returns (ss: seq<State>, acts: seq<Action>)
    requires 1 <= queueLen && queueLen + 3 <= coreCount
    ensures RunOf(ss, acts, coreCount, queueLen)
    ensures |ss[|acts|].cores| == coreCount
    ensures ss[|acts|].active == |ActiveCores(ss[|acts|])| - 1
  {
    ss, acts := Roll(coreCount, queueLen, queueLen);
    ss, acts := ServeFront(ss, acts, coreCount, queueLen);
    var s := ss[|acts|];
    assert s.halted == {queueLen + 2};
    assert ActiveCores(s) == Finite.Below(coreCount) - {queueLen + 2};
  }

  // A queue without nodes

  /** With no node at all the first push overflows, but its error makes the counter differ from
      node_count, so the queue takes every later push. A single core is stopped by its overflow and
      makes no second push; what happens to it: */
  ghost predicate Alone(s: State) {
    && |s.cores| <= 1 && Capacity(s.hdlr.ring) == 0
    && s.halted == {} && s.active == |ActiveCores(s)|
    && (s.hdlr.ring.count > 0 ==> IsError(Front(s.hdlr.ring).number) && (s.overflowed || s.panic.Some?))
    && (forall r :: r in InService(s.os) ==> IsError(r.number))
    && (forall c :: 0 <= c < |s.cores| ==> Solitary(s, s.cores[c]))
  }

  predicate Solitary(s: State, core: Core) {
    && !Waits(core.phase) && !core.phase.Woken? && !core.phase.Reacquired?
    && (s.overflowed ==> core.stop && (core.phase.Running? || core.phase.Exited?))
  }

  lemma CoreStepAlone(s: State, a: Action)
    requires Basic(s) && Alone(s) && Enabled(s, a) && IsCoreAction(a)
    ensures Alone(Apply(s, a))
  {
    CoreStepFrame(s, a);
    CoreStepBasic(s, a);
    assert a.core == 0;
    assert ActiveCores(Apply(s, a)) == ActiveCores(s);
  }

  lemma OsBootAlone(s: State)
    requires Basic(s) && Alone(s) && Enabled(s, OsBoot)
    ensures Alone(Apply(s, OsBoot))
  {
    if s.os.next < |s.cores| {
      assert ActiveCores(Apply(s, OsBoot)) == ActiveCores(s) + {s.os.next};
    } else {
      assert ActiveCores(Apply(s, OsBoot)) == ActiveCores(s);
    }
  }

  lemma OsStepAlone(s: State, a: Action)
    requires Basic(s) && Alone(s) && Enabled(s, a) && !IsCoreAction(a) && !a.OsBoot?
    ensures Alone(Apply(s, a))
  {
    var t := Apply(s, a);
    OsStepBookkeeping(s, a);
    if a.OsServe? {
      assert s.os.req in InService(s.os);
    }
    OsKeepsBooted(s, a);
    assert ActiveCores(t) == ActiveCores(s);
    assert t.overflowed == s.overflowed;
    OsStepCores(s, a);
    forall c | 0 <= c < |t.cores| ensures Solitary(t, t.cores[c]) {
      assert CoreKept(s.cores[c], t.cores[c]) && PhaseByOs(s.cores[c].phase, t.cores[c].phase);
    }
  }

  lemma StepAlone(s: State, a: Action)
    requires Basic(s) && Alone(s) && Enabled(s, a)
    ensures Alone(Apply(s, a))
  {
    if IsCoreAction(a) {
      CoreStepAlone(s, a);
    } else if a.OsBoot? {
      OsBootAlone(s);
    } else {
      OsStepAlone(s, a);
    }
  }

  lemma {:induction false} AloneRun(ss: seq<State>, acts: seq<Action>, coreCount: nat, i: nat)
    requires RunOf(ss, acts, coreCount, 0) && i <= |acts| && coreCount <= 1
    ensures Alone(ss[i])
  {
    if i == 0 {
      assert ActiveCores(ss[0]) == {};
    } else {
      AloneRun(ss, acts, coreCount, i - 1);
      CalmRun(ss, acts, i - 1);
      StepAlone(ss[i - 1], acts[i - 1]);
    }
  }

  /** Of two cores the first overflows, and the halt of the second, queued twice over in the only node,
      is served twice. */
  lemma HaltServedTwiceWithoutNodes(coreCount: nat)
    returns (ss: seq<State>, acts: seq<Action>)
    requires 2 <= coreCount
    ensures RunOf(ss, acts, coreCount, 0)
    ensures |ss[|acts|].cores| == coreCount
    ensures ss[|acts|].active == |ActiveCores(ss[|acts|])| - 1
  {
    var s;
    ss, acts, s := OverflowReachable(coreCount, 0);
    ss, acts := ToSleep(ss, acts, coreCount, 0, 1, REQ_HALT);
    ss, acts := Do(ss, acts, coreCount, 0, OsBoot);
    ss, acts := ServeFront(ss, acts, coreCount, 0);
    ss, acts := ServeFront(ss, acts, coreCount, 0);
    assert ActiveCores(ss[|acts|]) == Finite.Below(coreCount) - {1};
  }

  // The exact bound

  /** The largest number of cores for which the counter can be trusted. */
  function TrustedCores(queueLen: nat): nat {
    if queueLen == 0 then 1 else queueLen + 2
  }

  /** For every queue and every number of cores: active_core_count is exact in all runs with that many
      cores if and only if there are at most two cores more than queue nodes, or, for a queue without
      nodes, at most one core. */
  lemma ActiveCountExactIff(coreCount: nat, queueLen: nat)
    ensures coreCount <= TrustedCores(queueLen) <==>
            forall ss: seq<State>, acts: seq<Action> ::
              RunOf(ss, acts, coreCount, queueLen) && |ss[|acts|].cores| == coreCount ==>
                ss[|acts|].active == |ActiveCores(ss[|acts|])|
  {
    if coreCount <= TrustedCores(queueLen) {
      forall ss: seq<State>, acts: seq<Action> |
        RunOf(ss, acts, coreCount, queueLen) && |ss[|acts|].cores| == coreCount
        ensures ss[|acts|].active == |ActiveCores(ss[|acts|])|
      {
        if queueLen == 0 {
          AloneRun(ss, acts, coreCount, |acts|);
        } else {
          GrowthAlongRun(ss, acts, 0, |acts|);
          ActiveCountIsExact(ss, acts, |acts|);
        }
      }
    } else if queueLen == 0 {
      var ss, acts := HaltServedTwiceWithoutNodes(coreCount);
    } else {
      var ss, acts := HaltServedTwice(coreCount, queueLen);
    }
  }
}
