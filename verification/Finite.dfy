/** Counting distinct natural numbers below a bound. */
module Finite {

  function Below(n: nat): (s: set<nat>)
    ensures |s| == n
    ensures forall k: nat :: k in s <==> k < n
  {
    if n == 0 then {} else Below(n - 1) + {n - 1}
  }

  function Elements(ids: seq<nat>): (s: set<nat>)
    ensures forall x :: x in s <==> x in ids
  {
    if ids == [] then {} else Elements(ids[..|ids| - 1]) + {ids[|ids| - 1]}
  }

  predicate Distinct(ids: seq<nat>) {
    forall j, k :: 0 <= j < k < |ids| ==> ids[j] != ids[k]
  }

  lemma {:induction false} DistinctElements(ids: seq<nat>)
    requires Distinct(ids)
    ensures |Elements(ids)| == |ids|
  {
    if ids != [] {
      DistinctElements(ids[..|ids| - 1]);
    }
  }

  lemma {:induction false} SubsetSize<T>(a: set<T>, b: set<T>)
    requires a <= b
    ensures |a| <= |b|
  {
    if a != {} {
      var x :| x in a;
      SubsetSize(a - {x}, b - {x});
    }
  }

  /** Distinct numbers below n that all avoid one of them are fewer than n. */
  lemma DistinctBelow(ids: seq<nat>, n: nat, avoided: nat)
    requires avoided < n && Distinct(ids)
    requires forall k :: 0 <= k < |ids| ==> ids[k] < n && ids[k] != avoided
    ensures |ids| < n
  {
    DistinctElements(ids);
    SubsetSize(Elements(ids), Below(n) - {avoided});
  }
}
