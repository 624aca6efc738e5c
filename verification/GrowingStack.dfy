/** merry/merry_stack.c: the bounded stack that grows by a fixed number of slots when it is full.
    The cores use one as their return-address stack. */
module GrowingStack {
  import opened Wrappers
  import opened Arith
  import opened Words

  /** The entries from the bottom up, the slots allocated, and the three settings. */
  datatype Stack = Stack(entries: seq<qword>, size: nat, dynamic: bool, limit: nat, growth: nat)

  predicate Sized(s: Stack) {
    |s.entries| <= s.size
  }

  /** A limit of 0 means 1000. */
  function New(len: nat, dynamic: bool, limit: nat, growth: nat): (s: Stack)
    ensures Sized(s)
  {
    Stack([], len, dynamic, if limit == 0 then 1000 else limit, growth)
  }

  function Resize(s: Stack): (bool, Stack) {
    if s.size + s.growth > s.limit then (false, s) else (true, s.(size := s.size + s.growth))
  }

  /** A full stack that may grow by 0 slots: the resize succeeds, and the push then writes behind the
      array. */
  predicate WritesBehind(s: Stack) {
    s.dynamic && s.growth == 0 && |s.entries| == s.size <= s.limit
  }

  function Push(s: Stack, x: qword): (bool, Stack) {
    if |s.entries| >= s.size then
      if !s.dynamic then (false, s)
      else
        var (ok, grown) := Resize(s);
        if ok then (true, grown.(entries := s.entries + [x])) else (false, grown)
    else (true, s.(entries := s.entries + [x]))
  }

  function Pop(s: Stack): (Option<qword>, Stack) {
    if s.entries == [] then (None, s)
    else (Some(s.entries[|s.entries| - 1]), s.(entries := s.entries[..|s.entries| - 1]))
  }

  // Capacity

  /** The largest number of entries the settings allow. */
  function Capacity(s: Stack): nat {
    if s.dynamic && s.growth > 0 && s.size <= s.limit
      then s.size + (s.limit - s.size) / s.growth * s.growth
      else s.size
  }

  /** A push stays inside the array except in that one case. It then never changes the capacity, and
      succeeds exactly below it. */
  lemma CapacityKept(s: Stack, x: qword)
    requires Sized(s)
    ensures Sized(Push(s, x).1) <==> !WritesBehind(s)
    ensures !WritesBehind(s) ==>
              && Capacity(Push(s, x).1) == Capacity(s)
              && (Push(s, x).0 <==> |s.entries| < Capacity(s))
              && Push(s, x).1.entries == (if Push(s, x).0 then s.entries + [x] else s.entries)
  {
    if s.dynamic && s.size <= s.limit && s.growth > 0 {
      OneStep(s.limit - s.size, s.growth);
    }
  }

  lemma OneStep(left: nat, growth: nat)
    requires growth > 0
    ensures left < growth ==> left / growth == 0
    ensures left >= growth ==> left / growth * growth == growth + (left - growth) / growth * growth
    ensures 0 <= left / growth * growth <= left
  {
    var q, r := left / growth, left % growth;
    Divide(left, growth);
    if left >= growth {
      if q == 0 {
        assert false;
      }
      Distribute(q - 1, 1, growth);
      Remainder(left - growth, growth, q - 1, r);
    } else {
      Remainder(left, growth, 0, left);
    }
  }

  /** Pushes until one is refused: how many were accepted. */
  function Accepted(s: Stack, xs: seq<qword>): nat
    decreases |xs|
  {
    if xs == [] || !Push(s, xs[0]).0 then 0
    else 1 + Accepted(Push(s, xs[0]).1, xs[1..])
  }

  lemma {:induction false} AcceptedUpToCapacity(s: Stack, xs: seq<qword>)
    requires Sized(s) && s.growth > 0 && |s.entries| <= Capacity(s)
    ensures Accepted(s, xs) ==
            if |xs| <= Capacity(s) - |s.entries| then |xs| else Capacity(s) - |s.entries|
    decreases |xs|
  {
    if xs != [] {
      CapacityKept(s, xs[0]);
      if Push(s, xs[0]).0 {
        AcceptedUpToCapacity(Push(s, xs[0]).1, xs[1..]);
      }
    }
  }

  /** From empty, with growth and len <= limit, exactly len + growth * floor((limit - len) / growth)
      pushes are accepted, however many are tried. */
  lemma AcceptsExactly(len: nat, limit: nat, growth: nat, xs: seq<qword>)
    requires growth > 0 && limit > 0 && len <= limit
    ensures Accepted(New(len, true, limit, growth), xs) ==
            var capacity := len + (limit - len) / growth * growth;
            if |xs| <= capacity then |xs| else capacity
  {
    OneStep(limit - len, growth);
    AcceptedUpToCapacity(New(len, true, limit, growth), xs);
  }

  // Last in, first out

  function PushAll(s: Stack, xs: seq<qword>): Stack
    decreases |xs|
  {
    if xs == [] then s else PushAll(Push(s, xs[0]).1, xs[1..])
  }

  function PopMany(s: Stack, n: nat): (seq<qword>, Stack)
    decreases n
  {
    if n == 0 || Pop(s).0.None? then ([], s)
    else
      var (rest, t) := PopMany(Pop(s).1, n - 1);
      ([Pop(s).0.value] + rest, t)
  }

  function Reverse(xs: seq<qword>): (r: seq<qword>)
    ensures |r| == |xs|
  {
    if xs == [] then [] else Reverse(xs[1..]) + [xs[0]]
  }

  lemma {:induction false} PushAllAppends(s: Stack, xs: seq<qword>)
    requires Sized(s) && s.growth > 0 && |s.entries| + |xs| <= Capacity(s)
    ensures PushAll(s, xs).entries == s.entries + xs
    decreases |xs|
  {
    if xs != [] {
      CapacityKept(s, xs[0]);
      PushAllAppends(Push(s, xs[0]).1, xs[1..]);
      assert s.entries + [xs[0]] + xs[1..] == s.entries + xs;
    }
  }

  lemma {:induction false} ReverseSnoc(xs: seq<qword>, x: qword)
    ensures Reverse(xs + [x]) == [x] + Reverse(xs)
  {
    if xs != [] {
      ReverseSnoc(xs[1..], x);
      assert (xs + [x])[1..] == xs[1..] + [x];
    }
  }

  lemma {:induction false} PopManyReverses(s: Stack, below: seq<qword>, xs: seq<qword>)
    requires s.entries == below + xs
    ensures PopMany(s, |xs|).0 == Reverse(xs)
    ensures PopMany(s, |xs|).1 == s.(entries := below)
    decreases |xs|
  {
    if xs == [] {
      assert below + xs == below;
    } else {
      var last := |xs| - 1;
      assert xs == xs[..last] + [xs[last]];
      assert Pop(s).1.entries == below + xs[..last];
      PopManyReverses(Pop(s).1, below, xs[..last]);
      ReverseSnoc(xs[..last], xs[last]);
    }
  }

  /** Whatever resizes happen on the way, the values that fit come back in reverse order and the
      entries below are as before. */
  lemma LastInFirstOut(s: Stack, xs: seq<qword>)
    requires Sized(s) && s.growth > 0 && |s.entries| + |xs| <= Capacity(s)
    ensures var (popped, t) := PopMany(PushAll(s, xs), |xs|);
            popped == Reverse(xs) && t.entries == s.entries
  {
    PushAllAppends(s, xs);
    PopManyReverses(PushAll(s, xs), s.entries, xs);
  }

  // The structure itself

  class MerryStack {
    var data: array<qword>
    var size: nat
    var sp: nat
    var dynamic: bool
    var upperLim: nat
    var addPerResize: nat

    ghost predicate Valid()
      reads this
    {
      sp <= size == data.Length
    }

    ghost function View(): (s: Stack)
      requires Valid()
      reads this, data
      ensures Sized(s)
    {
      Stack(data[..sp], size, dynamic, upperLim, addPerResize)
    }

    constructor (len: nat, dynamic: bool, upperLim: nat, perResize: nat)
      ensures Valid() && fresh(data) && View() == New(len, dynamic, upperLim, perResize)
    {
      data := new qword[len](_ => 0);
      size, sp, this.dynamic, addPerResize := len, 0, dynamic, perResize;
      this.upperLim := if upperLim == 0 then 1000 else upperLim;
    }

    /** realloc copies the old slots. */
    method Grow() returns (ok: bool)
      requires Valid()
      modifies this`data, this`size
      ensures Valid() && (data == old(data) || fresh(data))
      ensures ok == Resize(old(View())).0 && View() == Resize(old(View())).1
    {
      var newLen := size + addPerResize;
      if newLen > upperLim {
        return false;
      }
      var bigger := new qword[newLen](_ => 0);
      forall k | 0 <= k < size {
        bigger[k] := data[k];
      }
      ghost var before := data[..sp];
      assert bigger[..sp] == before;
      data, size := bigger, newLen;
      ok := true;
    }

    method PushValue(x: qword) returns (ok: bool)
      requires Valid() && !WritesBehind(View())
      modifies this, data
      ensures Valid() && (data == old(data) || fresh(data))
      ensures ok == Push(old(View()), x).0 && View() == Push(old(View()), x).1
    {
      if sp >= size {
        if !dynamic {
          return false;
        }
        var grown := Grow();
        if !grown {
          return false;
        }
      }
      data[sp] := x;
      sp := sp + 1;
      ok := true;
    }

    method PopValue() returns (r: Option<qword>)
      requires Valid()
      modifies this`sp
      ensures Valid()
      ensures r == Pop(old(View())).0 && View() == Pop(old(View())).1
    {
      if sp == 0 {
        return None;
      }
      sp := sp - 1;
      r := Some(data[sp]);
    }
  }
}
