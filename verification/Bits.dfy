/** Numbers bit by bit. */
module Bits {
  import opened Arith

  function Pow2(n: nat): (p: nat)
    ensures p > 0
  {
    if n == 0 then 1 else 2 * Pow2(n - 1)
  }

  /** Bit k of a number. */
  predicate BitAt(v: nat, k: nat) {
    if k == 0 then v % 2 == 1 else BitAt(v / 2, k - 1)
  }

  /** The number with these n lowest bits. */
  function FromBits(bits: seq<bool>): (v: nat)
    ensures v < Pow2(|bits|)
  {
    if bits == [] then 0 else (if bits[0] then 1 else 0) + 2 * FromBits(bits[1..])
  }

  lemma {:induction false} BitOfFromBits(bits: seq<bool>, k: nat)
    requires k < |bits|
    ensures BitAt(FromBits(bits), k) == bits[k]
  {
    if k > 0 {
      BitOfFromBits(bits[1..], k - 1);
    }
  }

  lemma DivideTwice(v: nat, p: nat)
    requires p > 0
    ensures v / (2 * p) == v / 2 / p
  {
    var q := v / 2;
    Divide(q, p);
    Distribute(q / p * p, q % p, 2);
    assert 2 * (q / p * p) == q / p * (2 * p);
    Remainder(v, 2 * p, q / p, 2 * (q % p) + v % 2);
  }

  /** It is the digit that counts 2^k. */
  lemma {:induction false} BitIsDigit(v: nat, k: nat)
    ensures BitAt(v, k) <==> v / Pow2(k) % 2 == 1
  {
    if k > 0 {
      BitIsDigit(v / 2, k - 1);
      DivideTwice(v, Pow2(k - 1));
    }
  }

  /** Numbers below 2^n with the same n bits are equal. */
  lemma {:induction false} EqualBits(a: nat, b: nat, n: nat)
    requires a < Pow2(n) && b < Pow2(n) && forall k :: 0 <= k < n ==> BitAt(a, k) == BitAt(b, k)
    ensures a == b
  {
    if n > 0 {
      assert BitAt(a, 0) == BitAt(b, 0);
      forall k | 0 <= k < n - 1 ensures BitAt(a / 2, k) == BitAt(b / 2, k) {
        assert BitAt(a, k + 1) == BitAt(b, k + 1);
      }
      EqualBits(a / 2, b / 2, n - 1);
    }
  }

  /** The complement turns every bit over. */
  lemma {:induction false} ComplementAt(v: nat, n: nat, k: nat)
    requires v < Pow2(n) && k < n
    ensures BitAt(Pow2(n) - 1 - v, k) == !BitAt(v, k)
    decreases k
  {
    if k > 0 {
      ComplementAt(v / 2, n - 1, k - 1);
      assert (Pow2(n) - 1 - v) / 2 == Pow2(n - 1) - 1 - v / 2;
    }
  }

  lemma Pow64()
    ensures Pow2(64) == 0x1_0000_0000_0000_0000
  {
    assert Pow2(8) == 0x100;
    assert Pow2(16) == 0x1_0000;
    assert Pow2(24) == 0x100_0000;
    assert Pow2(32) == 0x1_0000_0000;
    assert Pow2(40) == 0x100_0000_0000;
    assert Pow2(48) == 0x1_0000_0000_0000;
    assert Pow2(56) == 0x100_0000_0000_0000;
  }
}
