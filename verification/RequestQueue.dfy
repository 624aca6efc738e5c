/** merry/tools/merry_queue.h and merry/merry_request_queue.c on the heap: a circular linked list
    of nodes with head and tail pointers into it, updated in place. */
module RequestQueue {
  import opened Wrappers
  import opened RequestRing

  class Node {
    var value: Request
    var next: Node?

    constructor ()
      ensures next == null && value == Request(0, Null, 0)
    {
      value, next := Request(0, Null, 0), null;
    }
  }

  class Queue {
    var nodeCount: nat
    var dataCount: nat
    var head: Node
    var tail: Node

    /** The nodes of the cycle in next-order, and where head and tail stand in it. */
    ghost var nodes: seq<Node>
    ghost var headAt: nat
    ghost var tailAt: nat

    ghost predicate Valid()
      reads this, nodes
    {
      && |nodes| == nodeCount + 1
      && headAt < |nodes| && tailAt < |nodes|
      && head == nodes[headAt] && tail == nodes[tailAt]
      && Cycle(nodes)
    }

    static ghost predicate Cycle(nodes: seq<Node>)
      reads nodes
    {
      && (forall i, j :: 0 <= i < j < |nodes| ==> nodes[i] != nodes[j])
      && (forall i :: 0 <= i < |nodes| ==>
            nodes[i].next != null && nodes[i].next == nodes[if i + 1 == |nodes| then 0 else i + 1])
    }

    static ghost function Values(nodes: seq<Node>): (s: seq<Request>)
      reads nodes
    {
      seq(|nodes|, i requires 0 <= i < |nodes| reads nodes => nodes[i].value)
    }

    /** The value of the structure: what each node of the cycle holds, and the three cursors. */
    ghost function View(): (q: Ring)
      requires Valid()
      reads this, nodes
      ensures Capacity(q) == nodeCount && q.count == dataCount
    {
      Ring(Values(nodes), headAt, tailAt, dataCount)
    }

    /** The node reached from head by following next `k` times, at most once around. */
    ghost function Walk(k: nat): (n: Node)
      requires Valid() && k <= |nodes|
      reads this, nodes
      ensures n == nodes[Slot(View(), k)]
    {
      if k == 0 then head else Walk(k - 1).next
    }

    /** Following next from head visits node_count + 1 distinct nodes, no others, and is back at
        head after exactly that many steps. */
    lemma WalkIsOneCycle()
      requires Valid()
      ensures forall i, j :: 0 <= i < j <= nodeCount ==> Walk(i) != Walk(j)
      ensures forall i :: 0 <= i <= nodeCount ==> Walk(i) in nodes
      ensures Walk(nodeCount + 1) == head
    {
    }

    /** Every node of the cycle is met within the first node_count steps. */
    lemma WalkReaches(n: Node) returns (k: nat)
      requires Valid() && n in nodes
      ensures k <= nodeCount && Walk(k) == n
    {
      var at :| 0 <= at < |nodes| && nodes[at] == n;
      k := if at >= headAt then at - headAt else at + |nodes| - headAt;
    }

    /** While the queue is linked, tail is `dataCount` next-steps from head. */
    lemma TailIsCountStepsFromHead()
      requires Valid() && Linked(View())
      ensures tail == Walk(dataCount)
      ensures head == tail <==> dataCount == 0
    {
      assert Walk(dataCount) == nodes[Slot(View(), dataCount)];
    }

    /** merry_request_queue_init: the head node, then one more node per pass of the loop, and the
        last node closed back onto the head. */
    constructor (numberOfRequests: nat)
      ensures Valid() && fresh(nodes)
      ensures View() == New(numberOfRequests)
    {
      nodeCount, dataCount := numberOfRequests, 0;
      var first := new Node();
      head, tail := first, first;
      headAt, tailAt := 0, 0;
      nodes := [first];
      new;
      var current := first;
      for i := 0 to numberOfRequests
        invariant |nodes| == i + 1 && fresh(nodes)
        invariant nodes[0] == first && nodes[i] == current
        invariant nodeCount == numberOfRequests && dataCount == 0
        invariant head == first && tail == first && headAt == 0 && tailAt == 0
        invariant forall a, b :: 0 <= a < b < |nodes| ==> nodes[a] != nodes[b]
        invariant forall a :: 0 <= a < i ==> nodes[a].next == nodes[a + 1]
        invariant forall a :: 0 <= a <= i ==> nodes[a].value == Request(0, Null, 0)
      {
        var node := new Node();
        current.next := node;
        nodes := nodes + [node];
        current := node;
      }
      current.next := head;
      tail := head;
      forall a | 0 <= a < |nodes|
        ensures nodes[a].next != null && nodes[a].next == nodes[if a + 1 == |nodes| then 0 else a + 1]
      {
        if a < numberOfRequests {
          assert nodes[a].next == nodes[a + 1];
        }
      }
    }

    /** merry_push_request: false exactly when the data counter equals node_count. */
    method PushRequest(cond: Cond, number: nat, id: nat) returns (ok: bool)
      requires Valid()
      modifies this, nodes
      ensures Valid() && nodes == old(nodes)
      ensures ok == !Full(old(View()))
      ensures View() == Push(old(View()), Request(number, cond, id))
    {
      if dataCount == nodeCount {
        return false;
      }
      tail.value := Request(number, cond, id);
      dataCount := dataCount + 1;
      tail := tail.next;
      tailAt := if tailAt + 1 == |nodes| then 0 else tailAt + 1;
      ok := true;
      assert View().slots == old(View()).slots[old(tailAt) := Request(number, cond, id)];
    }

    /** merry_pop_request: the head node's value, or nothing when the counter is zero. */
    method PopRequest() returns (r: Option<Request>)
      requires Valid()
      modifies this
      ensures Valid() && nodes == old(nodes)
      ensures r == if old(dataCount) == 0 then None else Some(Front(old(View())))
      ensures View() == Pop(old(View()))
    {
      if dataCount == 0 {
        return None;
      }
      r := Some(head.value);
      head := head.next;
      headAt := if headAt + 1 == |nodes| then 0 else headAt + 1;
      dataCount := dataCount - 1;
    }

    /** merry_panic_push: overwrite the head node and count one more entry. */
    method PanicPushError(error: nat)
      requires Valid()
      modifies this, nodes
      ensures Valid() && nodes == old(nodes)
      ensures View() == PanicPush(old(View()), ErrorRequest(error))
    {
      head.value := ErrorRequest(error);
      dataCount := dataCount + 1;
      assert View().slots == old(View()).slots[headAt := ErrorRequest(error)];
    }
  }
}
