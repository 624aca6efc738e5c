/** The request queue of merry/tools/merry_queue.h as a value: the nodes of the circular list in
    cycle order, the positions of head and tail in that cycle, and the separate data counter.
    The heap structure of RequestQueue.dfy is proved to behave as this value; this module
    proves that the value behaves as a bounded FIFO queue. */
module RequestRing {

  /** The `_wait_lock` of a request: the condition variable of a core, or NULL.
      A core owns exactly one condition variable, so the core's position names it. */
  datatype Cond = Null | CoreCond(core: nat)

  datatype Request = Request(number: nat, cond: Cond, id: nat)

  /** What merry_panic_push stores for an error code. */
  function ErrorRequest(error: nat): Request {
    Request(error, Null, 0)
  }

  datatype RawRing = Ring(slots: seq<Request>, head: nat, tail: nat, count: nat)

  predicate Shaped(q: RawRing) {
    |q.slots| > 0 && q.head < |q.slots| && q.tail < |q.slots|
  }

  type Ring = q: RawRing | Shaped(q) witness Ring([Request(0, Null, 0)], 0, 0, 0)

  /** node_count: one node fewer than the cycle holds. */
  function Capacity(q: Ring): nat {
    |q.slots| - 1
  }

  function Next(q: Ring, i: nat): nat
    requires i < |q.slots|
    ensures Next(q, i) < |q.slots|
  {
    if i + 1 == |q.slots| then 0 else i + 1
  }

  /** The position reached from head by following next `i` times (at most once around). */
  function Slot(q: Ring, i: nat): nat
    requires i <= |q.slots|
    ensures Slot(q, i) < |q.slots|
  {
    if q.head + i < |q.slots| then q.head + i else q.head + i - |q.slots|
  }

  function New(capacity: nat): (q: Ring)
    ensures Linked(q) && Contents(q) == [] && Capacity(q) == capacity
  {
    Ring(seq(capacity + 1, _ => Request(0, Null, 0)), 0, 0, 0)
  }

  // The four macros

  predicate Full(q: Ring) {
    q.count == Capacity(q)
  }

  function Push(q: Ring, r: Request): Ring {
    if Full(q) then q
    else Ring(q.slots[q.tail := r], q.head, Next(q, q.tail), q.count + 1)
  }

  function Front(q: Ring): Request {
    q.slots[q.head]
  }

  function Pop(q: Ring): Ring {
    if q.count == 0 then q
    else Ring(q.slots, Next(q, q.head), q.tail, q.count - 1)
  }

  /** The emergency push overwrites the head node and counts one more entry; tail stays. */
  function PanicPush(q: Ring, r: Request): Ring {
    Ring(q.slots[q.head := r], q.head, q.tail, q.count + 1)
  }

  function PopTimes(q: Ring, n: nat): Ring {
    if n == 0 then q else Pop(PopTimes(q, n - 1))
  }

  // The FIFO reading of a ring

  /** tail is `count` next-steps from head, and the spare node keeps full and empty apart. */
  predicate Linked(q: Ring) {
    q.count <= Capacity(q) && q.tail == Slot(q, q.count)
  }

  function Contents(q: Ring): (s: seq<Request>)
    requires Linked(q)
    ensures |s| == q.count
  {
    seq(q.count, i requires 0 <= i < q.count => q.slots[Slot(q, i)])
  }

  lemma HeadIsTailIffEmpty(q: Ring)
    requires Linked(q)
    ensures q.head == q.tail <==> Contents(q) == []
  {
    assert |Contents(q)| == q.count;
  }

  /** A push on a linked ring appends, unless the queue already holds `capacity` entries. */
  lemma PushAppends(q: Ring, r: Request)
    requires Linked(q)
    ensures Linked(Push(q, r)) && Capacity(Push(q, r)) == Capacity(q)
    ensures Contents(Push(q, r)) ==
            if |Contents(q)| == Capacity(q) then Contents(q) else Contents(q) + [r]
  {
    if !Full(q) {
      var p := Push(q, r);
      forall i | 0 <= i < q.count ensures Contents(p)[i] == Contents(q)[i] {
        assert Slot(p, i) == Slot(q, i) != q.tail;
      }
    }
  }

  /** A pop on a linked ring removes the oldest entry, which is what Front reads. */
  lemma PopRemovesOldest(q: Ring)
    requires Linked(q)
    ensures Linked(Pop(q)) && Capacity(Pop(q)) == Capacity(q)
    ensures q.count == 0 ==> Contents(Pop(q)) == []
    ensures q.count > 0 ==> Contents(q) == [Front(q)] + Contents(Pop(q))
  {
    if q.count > 0 {
      var p := Pop(q);
      assert Slot(q, 0) == q.head;
      forall i | 0 <= i < p.count ensures Contents(p)[i] == Contents(q)[i + 1] {
        assert Slot(p, i) == Slot(q, i + 1);
      }
    }
  }

  /** On an empty ring an emergency push is the only entry but tail does not move; on a
      non-empty one the oldest entry is lost. Either way the ring is no longer linked. */
  lemma PanicPushBreaksLink(q: Ring, r: Request)
    requires Linked(q)
    ensures Front(PanicPush(q, r)) == r
    ensures PanicPush(q, r).count > 0
    ensures !Linked(PanicPush(q, r))
    ensures forall i :: 1 <= i < q.count ==>
              PanicPush(q, r).slots[Slot(PanicPush(q, r), i)] == Contents(q)[i]
  {
    var p := PanicPush(q, r);
    forall i | 1 <= i < q.count ensures p.slots[Slot(p, i)] == Contents(q)[i] {
      assert Slot(p, i) == Slot(q, i) != q.head;
    }
  }

  // Runs of queue operations against the bounded FIFO specification

  datatype Op = PushOp(r: Request) | PopOp

  /** The answer of one operation: whether it succeeded and, for a pop, what it delivered. */
  datatype Reply = Refused | Pushed | Popped(r: Request)

  function RingStep(q: Ring, op: Op): (Ring, Reply) {
    match op
    case PushOp(r) => (Push(q, r), if Full(q) then Refused else Pushed)
    case PopOp => (Pop(q), if q.count == 0 then Refused else Popped(Front(q)))
  }

  /** The reference: a plain sequence that never holds more than `capacity` entries. */
  function FifoStep(capacity: nat, s: seq<Request>, op: Op): (seq<Request>, Reply) {
    match op
    case PushOp(r) => if |s| < capacity then (s + [r], Pushed) else (s, Refused)
    case PopOp => if s == [] then (s, Refused) else (s[1..], Popped(s[0]))
  }

  function RingRun(q: Ring, ops: seq<Op>): (Ring, seq<Reply>)
    decreases ops
  {
    if ops == [] then (q, [])
    else
      var (q1, reply) := RingStep(q, ops[0]);
      var (q2, replies) := RingRun(q1, ops[1..]);
      (q2, [reply] + replies)
  }

  function FifoRun(capacity: nat, s: seq<Request>, ops: seq<Op>): (seq<Request>, seq<Reply>)
    decreases ops
  {
    if ops == [] then (s, [])
    else
      var (s1, reply) := FifoStep(capacity, s, ops[0]);
      var (s2, replies) := FifoRun(capacity, s1, ops[1..]);
      (s2, [reply] + replies)
  }

  lemma StepRefines(q: Ring, op: Op)
    requires Linked(q)
    ensures var (q1, reply) := RingStep(q, op);
            Linked(q1) && Capacity(q1) == Capacity(q) &&
            FifoStep(Capacity(q), Contents(q), op) == (Contents(q1), reply)
  {
    match op
    case PushOp(r) => PushAppends(q, r);
    case PopOp => PopRemovesOldest(q);
  }

  /** Any sequence of pushes and pops gives the same replies and the same contents as the
      bounded FIFO sequence of capacity node_count. */
  lemma {:induction false} RunRefines(q: Ring, ops: seq<Op>)
    requires Linked(q)
    ensures var (q', replies) := RingRun(q, ops);
            Linked(q') && Capacity(q') == Capacity(q) &&
            FifoRun(Capacity(q), Contents(q), ops) == (Contents(q'), replies)
    decreases ops
  {
    if ops != [] {
      StepRefines(q, ops[0]);
      RunRefines(RingStep(q, ops[0]).0, ops[1..]);
    }
  }

  // The loop of merry_requestHdlr_kill_requests

  /** Pops while the pass number `i` is below the current count. */
  function KillLoop(q: Ring, i: nat): (Ring, seq<Request>)
    decreases q.count
  {
    if i < q.count then
      var (q', rest) := KillLoop(Pop(q), i + 1);
      (q', [Front(q)] + rest)
    else (q, [])
  }

  function KillCount(count: nat, i: nat): nat {
    if i < count then (count - i + 1) / 2 else 0
  }

  lemma {:induction false} PopOnceMore(q: Ring, n: nat)
    ensures PopTimes(Pop(q), n) == PopTimes(q, n + 1)
  {
    if n > 0 {
      PopOnceMore(q, n - 1);
    }
  }

  /** Both the counter and the count move, so the loop pops half of the passes left, rounded up. This
      holds of every ring, also of one that an emergency push has put out of step. */
  lemma {:induction false} KillLoopPopsHalf(q: Ring, i: nat)
    ensures var (q', killed) := KillLoop(q, i);
            && |killed| == KillCount(q.count, i)
            && q' == PopTimes(q, |killed|)
            && forall j :: 0 <= j < |killed| ==> killed[j] == Front(PopTimes(q, j))
    decreases q.count
  {
    var (q', killed) := KillLoop(q, i);
    if i < q.count {
      KillLoopPopsHalf(Pop(q), i + 1);
      PopOnceMore(q, |killed| - 1);
      forall j | 0 <= j < |killed| ensures killed[j] == Front(PopTimes(q, j)) {
        if j > 0 {
          assert killed[j] == KillLoop(Pop(q), i + 1).1[j - 1];
          PopOnceMore(q, j - 1);
        }
      }
    }
  }

  /** One pass: the front is popped first, then what the loop pops from the rest. */
  lemma KillLoopUnfolds(q: Ring, i: nat)
    requires Linked(q) && i < q.count
    ensures Linked(Pop(q)) && Capacity(Pop(q)) == Capacity(q) && Pop(q).count == q.count - 1
    ensures Contents(q) == [Front(q)] + Contents(Pop(q))
    ensures KillLoop(q, i).0 == KillLoop(Pop(q), i + 1).0
    ensures KillLoop(q, i).1 == [Front(q)] + KillLoop(Pop(q), i + 1).1
  {
    PopRemovesOldest(q);
  }

  lemma Associate<T>(a: seq<T>, b: seq<T>, c: seq<T>)
    ensures a + (b + c) == (a + b) + c
  {
  }

  /** On a linked ring these are the oldest requests in order, and the rest stays queued. */
  lemma {:induction false} KillLoopPopsOldestHalf(q: Ring, i: nat)
    requires Linked(q)
    ensures Linked(KillLoop(q, i).0) && Capacity(KillLoop(q, i).0) == Capacity(q)
    ensures |KillLoop(q, i).1| == KillCount(q.count, i)
    ensures Contents(q) == KillLoop(q, i).1 + Contents(KillLoop(q, i).0)
    decreases q.count
  {
    if i < q.count {
      KillLoopUnfolds(q, i);
      KillLoopPopsOldestHalf(Pop(q), i + 1);
      Associate([Front(q)], KillLoop(Pop(q), i + 1).1, Contents(KillLoop(Pop(q), i + 1).0));
    } else {
      assert [] + Contents(q) == Contents(q);
    }
  }

  /** The documented purpose, waking every waiting core, is met exactly for queues of at most
      one request. */
  lemma KillEmptiesQueueIffShort(q: Ring)
    requires Linked(q)
    ensures Linked(KillLoop(q, 0).0)
    ensures Contents(KillLoop(q, 0).0) == [] <==> |Contents(q)| <= 1
    ensures KillLoop(q, 0).1 == Contents(q)[..(|Contents(q)| + 1) / 2]
    ensures Contents(KillLoop(q, 0).0) == Contents(q)[(|Contents(q)| + 1) / 2..]
  {
    KillLoopPopsOldestHalf(q, 0);
  }
}
