/** The bound of RendezvousCalm is tight: as soon as there is one core more than the queue has
    nodes, some interleaving reaches the overflow branch of push_request. */
module RendezvousOverflow {
  import opened RequestRing
  import opened RequestHandler
  import opened Rendezvous
  import opened RendezvousCalm

  const REQ_MEM: nat := 165

  ghost predicate RunOf(ss: seq<State>, acts: seq<Action>, coreCount: nat, queueLen: nat) {
    Run(ss, acts) && ss[0] == Init(coreCount, queueLen)
  }

  lemma Extend(ss: seq<State>, acts: seq<Action>, coreCount: nat, queueLen: nat, a: Action)
    requires RunOf(ss, acts, coreCount, queueLen) && Enabled(ss[|acts|], a)
    ensures RunOf(ss + [Apply(ss[|acts|], a)], acts + [a], coreCount, queueLen)
  {
  }

  lemma Do(ss: seq<State>, acts: seq<Action>, coreCount: nat, queueLen: nat, a: Action)
    returns (ss': seq<State>, acts': seq<Action>)
    requires RunOf(ss, acts, coreCount, queueLen) && Enabled(ss[|acts|], a)
    ensures RunOf(ss', acts', coreCount, queueLen)
    ensures ss'[|acts'|] == Apply(ss[|acts|], a)
  {
    Extend(ss, acts, coreCount, queueLen, a);
    ss', acts' := ss + [Apply(ss[|acts|], a)], acts + [a];
  }

  /** The first `asleep` cores wait for a queued MEM request, the next up to `booted` run freely. */
  ghost predicate Scene(s: State, coreCount: nat, queueLen: nat, asleep: nat, booted: nat) {
    && asleep <= booted <= coreCount == |s.cores| && asleep <= queueLen
    && s.lock == Nobody && s.os == Booting(booted) && !s.stop && !s.overflowed
    && s.active == booted && s.halted == {} && s.hdlr.more
    && Lined(s.hdlr.ring, queueLen, asleep)
    && (forall c :: 0 <= c < asleep ==> s.cores[c] == Core(c, Asleep(false), false))
    && (forall c :: asleep <= c < booted ==> s.cores[c] == Core(c, Running, false))
    && (forall c :: booted <= c < coreCount ==> s.cores[c] == Core(c, Unbooted, false))
  }

  predicate Lined(q: Ring, queueLen: nat, asleep: nat) {
    && Capacity(q) == queueLen && q.head == 0 && q.tail == q.count == asleep
    && forall c :: 0 <= c < asleep ==> q.slots[c] == Request(REQ_MEM, CoreCond(c), c)
  }

  lemma {:induction false} BootAll(coreCount: nat, queueLen: nat, booted: nat)
    returns (ss: seq<State>, acts: seq<Action>)
    requires booted <= coreCount
    ensures RunOf(ss, acts, coreCount, queueLen)
    ensures Scene(ss[|acts|], coreCount, queueLen, 0, booted)
  {
    if booted == 0 {
      ss, acts := [Init(coreCount, queueLen)], [];
    } else {
      ss, acts := BootAll(coreCount, queueLen, booted - 1);
      ss, acts := Do(ss, acts, coreCount, queueLen, OsBoot);
    }
  }

  /** Core `c` makes a request and holds the lock in push_request. */
  lemma ToPush(ss: seq<State>, acts: seq<Action>, coreCount: nat, queueLen: nat, c: nat, number: nat)
    returns (ss': seq<State>, acts': seq<Action>)
    requires RunOf(ss, acts, coreCount, queueLen) && number <= 0xFFFF
    requires var s := ss[|acts|];
             c < |s.cores| && s.cores[c] == Core(c, Running, false) && s.lock == Nobody
    ensures RunOf(ss', acts', coreCount, queueLen)
    ensures ss'[|acts'|] == AtPush(ss[|acts|], c, number)
  {
    ss', acts' := Do(ss, acts, coreCount, queueLen, CoreEnter(c));
    ss', acts' := Do(ss', acts', coreCount, queueLen, CoreLockPush(c, number, false));
    var s := ss[|acts|];
    assert s.cores[c := Core(c, Executing, false)][c := Core(c, PushLocked(number, false), false)]
        == s.cores[c := Core(c, PushLocked(number, false), false)];
  }

  function AtPush(s: State, c: nat, number: nat): State
    requires c < |s.cores|
  {
    s.(cores := s.cores[c := Core(c, PushLocked(number, false), false)], lock := CoreOwns(c))
  }

  /** ... and, when the queue takes it, goes to sleep. */
  lemma ToSleep(ss: seq<State>, acts: seq<Action>, coreCount: nat, queueLen: nat, c: nat, number: nat)
    returns (ss': seq<State>, acts': seq<Action>)
    requires RunOf(ss, acts, coreCount, queueLen) && number <= 0xFFFF
    requires var s := ss[|acts|];
             && c < |s.cores| && s.cores[c] == Core(c, Running, false) && s.lock == Nobody
             && s.hdlr.more && !Full(s.hdlr.ring)
    ensures RunOf(ss', acts', coreCount, queueLen)
    ensures var s, r := ss[|acts|], Request(number, CoreCond(c), c);
            ss'[|acts'|] == s.(cores := s.cores[c := Core(c, Asleep(false), false)],
                               hdlr := s.hdlr.(ring := Push(s.hdlr.ring, r)),
                               accepted := s.accepted + [r])
  {
    ss', acts' := ToPush(ss, acts, coreCount, queueLen, c, number);
    ss', acts' := Do(ss', acts', coreCount, queueLen, CorePush(c));
    ss', acts' := Do(ss', acts', coreCount, queueLen, CoreSleep(c));
    var s := ss[|acts|];
    assert s.cores[c := Core(c, PushLocked(number, false), false)][c := Core(c, Enqueued(false), false)]
             [c := Core(c, Asleep(false), false)]
        == s.cores[c := Core(c, Asleep(false), false)];
  }

  lemma {:induction false} QueueSome(coreCount: nat, queueLen: nat, asleep: nat)
    returns (ss: seq<State>, acts: seq<Action>)
    requires asleep <= queueLen && asleep <= coreCount
    ensures RunOf(ss, acts, coreCount, queueLen)
    ensures Scene(ss[|acts|], coreCount, queueLen, asleep, coreCount)
  {
    if asleep == 0 {
      ss, acts := BootAll(coreCount, queueLen, coreCount);
    } else {
      ss, acts := QueueSome(coreCount, queueLen, asleep - 1);
      ss, acts := ToSleep(ss, acts, coreCount, queueLen, asleep - 1, REQ_MEM);
    }
  }

  lemma OverflowReachable(coreCount: nat, queueLen: nat)
    returns (ss: seq<State>, acts: seq<Action>, s: State)
    requires queueLen < coreCount
    ensures RunOf(ss, acts, coreCount, queueLen)
    ensures Scene(s, coreCount, queueLen, queueLen, coreCount)
    ensures ss[|acts|] == s.(cores := s.cores[queueLen := Core(queueLen, Running, true)],
                             hdlr := s.hdlr.(ring := PanicPush(s.hdlr.ring, ErrorRequest(REQUEST_BUFFER_OVERFLOW))),
                             overflowed := true)
  {
    ss, acts := QueueSome(coreCount, queueLen, queueLen);
    s := ss[|acts|];
    ss, acts := ToPush(ss, acts, coreCount, queueLen, queueLen, REQ_MEM);
    ss, acts := Do(ss, acts, coreCount, queueLen, CorePush(queueLen));
    assert s.cores[queueLen := Core(queueLen, PushLocked(REQ_MEM, false), false)]
             [queueLen := Core(queueLen, Running, true)]
        == s.cores[queueLen := Core(queueLen, Running, true)];
  }

  /** With a fixed number of cores, the overflow branch can be taken in some run if and only if
      the cores outnumber node_count. */
  lemma OverflowIffCoresOutnumberNodes(coreCount: nat, queueLen: nat)
    ensures queueLen < coreCount <==>
            exists ss: seq<State>, acts: seq<Action> :: RunOf(ss, acts, coreCount, queueLen) &&
                               ss[|acts|].overflowed && |ss[|acts|].cores| == coreCount
  {
    if queueLen < coreCount {
      var ss, acts, s := OverflowReachable(coreCount, queueLen);
    }
    forall ss: seq<State>, acts: seq<Action> | RunOf(ss, acts, coreCount, queueLen) &&
                      ss[|acts|].overflowed && |ss[|acts|].cores| == coreCount
      ensures queueLen < coreCount
    {
      GrowthAlongRun(ss, acts, 0, |acts|);
      if coreCount <= queueLen {
        NoOverflow(ss, acts, |acts|);
      }
    }
  }
}
