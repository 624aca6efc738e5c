/** 64-bit words as numbers, with the wrap-around of the C type written out. */
module Words {

  const TWO64: nat := 0x1_0000_0000_0000_0000

  type qword = w: int | 0 <= w < 0x1_0000_0000_0000_0000

  function Wrap(n: int): qword {
    n % 0x1_0000_0000_0000_0000
  }

  lemma WrapSmall(n: nat)
    requires n < TWO64
    ensures Wrap(n) == n
  {
  }

  lemma WrapAdds(a: int, b: int)
    ensures Wrap(Wrap(a) as int + b) == Wrap(a + b)
  {
  }
}
