/** merry/merry_request_hdlr.c: the critical sections that cores and the OS run on the request
    queue while they hold req_hdlr.lock. First as functions on values, which the interleaving
    model of Rendezvous.dfy steps through; then as the methods that update the queue in place. */
module RequestHandler {
  import opened Wrappers
  import opened RequestRing
  import opened RequestQueue

  /** _PANIC_REQBUFFEROVERFLOW */
  const REQUEST_BUFFER_OVERFLOW: nat := 1

  datatype Handler = Handler(ring: Ring, more: bool)

  /** The three ways out of the body of merry_requestHdlr_push_request. */
  datatype Outcome = Ignored | Overflowed | Accepted

  function PushOutcome(h: Handler): Outcome {
    if !h.more then Ignored else if Full(h.ring) then Overflowed else Accepted
  }

  /** Overflow is an emergency push, but unlike Panic it leaves handle_more set. */
  function AfterPush(h: Handler, r: Request): Handler {
    match PushOutcome(h)
    case Ignored => h
    case Overflowed => h.(ring := PanicPush(h.ring, ErrorRequest(REQUEST_BUFFER_OVERFLOW)))
    case Accepted => h.(ring := Push(h.ring, r))
  }

  function AfterPanic(h: Handler, error: nat): Handler {
    if h.more then Handler(PanicPush(h.ring, ErrorRequest(error)), false) else h
  }

  function AfterPop(h: Handler): Handler {
    h.(ring := Pop(h.ring))
  }

  /** A condition-variable signal, in the order in which they are sent. */
  datatype Signal = HostSignal | CoreSignal(cond: Cond)

  function CoreSignals(rs: seq<Request>): (s: seq<Signal>)
    ensures |s| == |rs|
    ensures forall i :: 0 <= i < |rs| ==> s[i] == CoreSignal(rs[i].cond)
  {
    seq(|rs|, i requires 0 <= i < |rs| => CoreSignal(rs[i].cond))
  }

  // When the host is signalled

  /** A call on the handler, apart from kill_requests, which pops. */
  datatype Call = Pushes(r: Request) | Panics(error: nat) | Pops

  function Called(h: Handler, c: Call): Handler {
    match c
    case Pushes(r) => AfterPush(h, r)
    case Panics(error) => AfterPanic(h, error)
    case Pops => AfterPop(h)
  }

  /** The calls that signal the host: those that an open handler with an empty queue gets. */
  predicate SignalsHost(h: Handler, c: Call) {
    !c.Pops? && h.more && h.ring.count == 0
  }

  ghost predicate Calls(hs: seq<Handler>, calls: seq<Call>) {
    && |hs| == |calls| + 1
    && forall i :: 0 <= i < |calls| ==> hs[i + 1] == Called(hs[i], calls[i])
  }

  /** These are exactly the calls that take the number of entries from 0 to 1. */
  lemma SignalledAtFirstEntry(h: Handler, c: Call)
    ensures SignalsHost(h, c) <==> h.ring.count == 0 && Called(h, c).ring.count == 1
    ensures h.ring.count == 0 ==> Called(h, c).ring.count <= 1
  {
  }

  /** Over any sequence of calls on a handler that was empty once: while there are entries, the host has
      been signalled since the queue was last empty. */
  lemma {:induction false} SignalledSinceEmpty(hs: seq<Handler>, calls: seq<Call>, i: nat) returns (k: nat)
    requires Calls(hs, calls) && i <= |calls| && hs[0].ring.count == 0 && hs[i].ring.count > 0
    ensures k < i && SignalsHost(hs[k], calls[k]) && hs[k].ring.count == 0
    ensures forall j :: k < j <= i ==> hs[j].ring.count > 0
  {
    SignalledAtFirstEntry(hs[i - 1], calls[i - 1]);
    if hs[i - 1].ring.count == 0 {
      k := i - 1;
    } else {
      k := SignalledSinceEmpty(hs, calls, i - 1);
    }
  }

  // The loop of kill_requests

  /** `killed` has been popped from `whole`, and the loop stands at pass i with `ring` left. */
  ghost predicate KilledSoFar(whole: Ring, ring: Ring, i: nat, killed: seq<Request>) {
    && KillLoop(whole, 0).0 == KillLoop(ring, i).0
    && KillLoop(whole, 0).1 == killed + KillLoop(ring, i).1
  }

  lemma KillStarts(whole: Ring)
    ensures KilledSoFar(whole, whole, 0, [])
  {
    assert [] + KillLoop(whole, 0).1 == KillLoop(whole, 0).1;
  }

  lemma KillOne(whole: Ring, ring: Ring, i: nat, killed: seq<Request>)
    requires KilledSoFar(whole, ring, i, killed) && i < ring.count
    ensures KilledSoFar(whole, Pop(ring), i + 1, killed + [Front(ring)])
    ensures CoreSignals(killed + [Front(ring)]) == CoreSignals(killed) + [CoreSignal(Front(ring).cond)]
  {
    var rest := KillLoop(Pop(ring), i + 1).1;
    assert killed + ([Front(ring)] + rest) == (killed + [Front(ring)]) + rest;
  }

  lemma KillEnds(whole: Ring, ring: Ring, i: nat, killed: seq<Request>)
    requires KilledSoFar(whole, ring, i, killed) && i >= ring.count
    ensures KillLoop(whole, 0) == (ring, killed)
  {
    assert killed + [] == killed;
  }

  class RequestHdlr {
    const queue: Queue
    var handleMore: bool
    /** Every signal sent so far. */
    var signals: seq<Signal>

    ghost predicate Valid()
      reads this, queue, queue.nodes
    {
      queue.Valid()
    }

    ghost function View(): Handler
      requires Valid()
      reads this, queue, queue.nodes
    {
      Handler(queue.View(), handleMore)
    }

    constructor (queueLen: nat)
      ensures Valid() && fresh(queue) && fresh(queue.nodes)
      ensures View() == Handler(New(queueLen), true) && signals == []
    {
      queue := new Queue(queueLen);
      handleMore := true;
      signals := [];
    }

    /** push_request from lock to cond_wait: the caller goes to sleep exactly when `outcome` is
        Accepted, and is told RET_FAILURE exactly when it is Overflowed. The host is signalled exactly
        when an empty queue got its first entry. */
    method PushRequest(number: nat, id: nat, cond: Cond) returns (outcome: Outcome)
      requires Valid()
      modifies this, queue, queue.nodes
      ensures Valid() && queue.nodes == old(queue.nodes)
      ensures outcome == PushOutcome(old(View()))
      ensures View() == AfterPush(old(View()), Request(number, cond, id))
      ensures signals == old(signals) + if old(handleMore && queue.dataCount == 0) then [HostSignal] else []
    {
      if !handleMore {
        return Ignored;
      }
      var ok := queue.PushRequest(cond, number, id);
      if !ok {
        queue.PanicPushError(REQUEST_BUFFER_OVERFLOW);
        outcome := Overflowed;
      } else {
        outcome := Accepted;
      }
      if queue.dataCount == 1 {
        signals := signals + [HostSignal];
      }
    }

    /** Only the first panic reaches the queue; it closes the handler for good. */
    method Panic(error: nat)
      requires Valid()
      modifies this, queue, queue.nodes
      ensures Valid() && queue.nodes == old(queue.nodes)
      ensures View() == AfterPanic(old(View()), error)
      ensures signals == old(signals) + if old(handleMore && queue.dataCount == 0) then [HostSignal] else []
    {
      if !handleMore {
        return;
      }
      queue.PanicPushError(error);
      if queue.dataCount == 1 {
        signals := signals + [HostSignal];
      }
      handleMore := false;
    }

    method PopRequest() returns (r: Option<Request>)
      requires Valid()
      modifies queue
      ensures Valid() && queue.nodes == old(queue.nodes)
      ensures r == if old(queue.dataCount) == 0 then None else Some(Front(old(View()).ring))
      ensures View() == AfterPop(old(View()))
    {
      r := queue.PopRequest();
    }

    /** One pass of kill_requests. */
    method PopAndSignal() returns (r: Request)
      requires Valid() && queue.dataCount > 0
      modifies this`signals, queue
      ensures Valid() && queue.nodes == old(queue.nodes)
      ensures r == Front(old(View()).ring) && View() == AfterPop(old(View()))
      ensures signals == old(signals) + [CoreSignal(r.cond)]
    {
      var popped := queue.PopRequest();
      r := popped.value;
      signals := signals + [CoreSignal(r.cond)];
    }

    /** kill_requests: `i` counts up while data_count counts down. It ends after popping and
        signalling what KillLoop says: half of the passes, which on a linked queue are its oldest
        requests. */
    method KillRequests() returns (killed: seq<Request>)
      requires Valid()
      modifies this, queue
      ensures Valid() && queue.nodes == old(queue.nodes)
      ensures (View().ring, killed) == KillLoop(old(View()).ring, 0)
      ensures handleMore == old(handleMore)
      ensures signals == old(signals) + CoreSignals(killed)
    {
      killed := [];
      var i := 0;
      ghost var whole := queue.View();
      KillStarts(whole);
      while i < queue.dataCount
        invariant Valid() && queue.nodes == old(queue.nodes) && handleMore == old(handleMore)
        invariant KilledSoFar(whole, queue.View(), i, killed)
        invariant signals == old(signals) + CoreSignals(killed)
        decreases queue.dataCount
      {
        KillOne(whole, queue.View(), i, killed);
        var r := PopAndSignal();
        killed := killed + [r];
        i := i + 1;
      }
      KillEnds(whole, queue.View(), i, killed);
    }
  }
}
