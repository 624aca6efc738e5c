/** The facts about products, quotients and remainders that address arithmetic needs. */
module Arith {

  lemma ScaleUp(a: nat, b: nat, size: nat)
    requires a <= b
    ensures a * size <= b * size
  {
  }

  lemma Distribute(a: nat, b: nat, size: nat)
    ensures (a + b) * size == a * size + b * size
  {
  }

  lemma Reassociate(a: nat, b: nat, size: nat)
    ensures a * b * size == a * (b * size)
  {
  }

  lemma Divide(a: nat, size: nat)
    requires size > 0
    ensures a == a / size * size + a % size
  {
  }

  /** A quotient and a remainder below the divisor are the quotient and the remainder. */
  lemma Remainder(a: nat, size: nat, q: nat, r: nat)
    requires r < size && a == q * size + r
    ensures a / size == q && a % size == r
  {
    Divide(a, size);
    if a / size < q {
      ScaleUp(a / size + 1, q, size);
      Distribute(a / size, 1, size);
    } else if q < a / size {
      ScaleUp(q + 1, a / size, size);
      Distribute(q, 1, size);
    }
  }
}
