/** Bytes and their reading as numbers, lowest first and highest first. */
module Bytes {
  import opened Arith

  type byte = b: int | 0 <= b < 256

  function Pow256(n: nat): (p: nat)
    ensures p > 0
  {
    if n == 0 then 1 else 256 * Pow256(n - 1)
  }

  /** The low `width` bytes of a value, lowest first. */
  function LeBytes(v: nat, width: nat): (bs: seq<byte>)
    ensures |bs| == width
  {
    if width == 0 then [] else [v % 256] + LeBytes(v / 256, width - 1)
  }

  function LeValue(bs: seq<byte>): nat {
    if bs == [] then 0 else bs[0] + 256 * LeValue(bs[1..])
  }

  lemma {:induction false} LeValueOfBytes(v: nat, width: nat)
    ensures LeValue(LeBytes(v, width)) == v % Pow256(width)
  {
    if width > 0 {
      LeValueOfBytes(v / 256, width - 1);
      var p := Pow256(width - 1);
      var q := v / 256;
      assert LeBytes(v, width)[1..] == LeBytes(q, width - 1);
      ModSplit(v, p);
    }
  }

  lemma LeValueOfSmall(v: nat, width: nat)
    requires v < Pow256(width)
    ensures LeValue(LeBytes(v, width)) == v
  {
    LeValueOfBytes(v, width);
    Remainder(v, Pow256(width), 0, v);
  }

  lemma ModSplit(v: nat, p: nat)
    requires p > 0
    ensures v % (256 * p) == v % 256 + 256 * (v / 256 % p)
    ensures v / (256 * p) == v / 256 / p
  {
    var q := v / 256;
    Divide(q, p);
    Regroup(q / p, p, q % p, v % 256);
    Remainder(v, 256 * p, q / p, 256 * (q % p) + v % 256);
  }

  lemma Regroup(a: nat, p: nat, b: nat, c: nat)
    ensures 256 * (a * p + b) + c == a * (256 * p) + (256 * b + c)
  {
  }

  lemma {:induction false} LeBytesPrefix(v: nat, width: nat, n: nat)
    requires n <= width
    ensures LeBytes(v, width)[..n] == LeBytes(v, n)
  {
    if n > 0 {
      LeBytesPrefix(v / 256, width - 1, n - 1);
    }
  }

  /** The value without its lowest `i` bytes: v / 256^i. */
  function DropBytes(v: nat, i: nat): nat {
    if i == 0 then v else DropBytes(v / 256, i - 1)
  }

  lemma {:induction false} DropIsDivision(v: nat, i: nat)
    ensures DropBytes(v, i) == v / Pow256(i)
  {
    if i > 0 {
      DropIsDivision(v / 256, i - 1);
      ModSplit(v, Pow256(i - 1));
    }
  }

  lemma {:induction false} LeBytesSlice(v: nat, width: nat, i: nat, n: nat)
    requires i + n <= width
    ensures LeBytes(v, width)[i..i + n] == LeBytes(DropBytes(v, i), n)
    decreases i
  {
    if i == 0 {
      LeBytesPrefix(v, width, n);
    } else {
      LeBytesSlice(v / 256, width - 1, i - 1, n);
      var bs, rest := LeBytes(v, width), LeBytes(v / 256, width - 1);
      assert bs == [v % 256] + rest;
      assert bs[i..i + n] == rest[i - 1..i - 1 + n];
    }
  }

  /** Reading `n` of the bytes of a value, from byte `i` on, gives that slice of the value. */
  lemma LeSlice(v: nat, width: nat, i: nat, n: nat)
    requires i + n <= width
    ensures LeValue(LeBytes(v, width)[i..i + n]) == DropBytes(v, i) % Pow256(n)
  {
    LeBytesSlice(v, width, i, n);
    LeValueOfBytes(DropBytes(v, i), n);
  }

  /** Byte i counts 256^i. */
  lemma LeDigit(v: nat, width: nat, i: nat)
    requires i < width
    ensures LeBytes(v, width)[i] == v / Pow256(i) % 256
  {
    LeBytesSlice(v, width, i, 1);
    DropIsDivision(v, i);
    assert LeBytes(v, width)[i..i + 1] == [LeBytes(v, width)[i]];
    assert LeBytes(DropBytes(v, i), 1)[0] == DropBytes(v, i) % 256;
  }

  lemma {:induction false} LeBytesOfValue(bs: seq<byte>)
    ensures LeBytes(LeValue(bs), |bs|) == bs
    ensures LeValue(bs) < Pow256(|bs|)
  {
    if bs != [] {
      LeBytesOfValue(bs[1..]);
    }
  }

  // Big-endian

  function BeBytes(v: nat, width: nat): (bs: seq<byte>)
    ensures |bs| == width
  {
    if width == 0 then [] else BeBytes(v / 256, width - 1) + [v % 256]
  }

  /** Shift the value read so far by 8 and add the next byte. */
  function BeValue(bs: seq<byte>): nat {
    if bs == [] then 0 else 256 * BeValue(bs[..|bs| - 1]) + bs[|bs| - 1]
  }

  /** Reading joined bytes: those in front count for as many places as follow them. */
  lemma {:induction false} BeJoins(a: seq<byte>, b: seq<byte>)
    ensures BeValue(a + b) == BeValue(a) * Pow256(|b|) + BeValue(b)
    decreases |b|
  {
    if b == [] {
      assert a + b == a;
    } else {
      var n := |b| - 1;
      BeJoins(a, b[..n]);
      assert (a + b)[..|a + b| - 1] == a + b[..n];
      Regroup(BeValue(a), Pow256(n), BeValue(b[..n]), b[n]);
    }
  }

  lemma BeOne(x: byte)
    ensures BeValue([x]) == x
  {
    assert BeValue([]) == 0;
  }

  /** Byte i counts 256 to the number of bytes behind it. */
  lemma {:induction false} BeDigit(v: nat, width: nat, i: nat)
    requires i < width
    ensures BeBytes(v, width)[i] == v / Pow256(width - 1 - i) % 256
    decreases width
  {
    if i < width - 1 {
      BeDigit(v / 256, width - 1, i);
      ModSplit(v, Pow256(width - 2 - i));
    }
  }

  lemma {:induction false} BeValueOfBytes(v: nat, width: nat)
    requires v < Pow256(width)
    ensures BeValue(BeBytes(v, width)) == v
  {
    if width > 0 {
      BeValueOfBytes(v / 256, width - 1);
      assert BeBytes(v, width)[..width - 1] == BeBytes(v / 256, width - 1);
    }
  }

  lemma {:induction false} BeBytesOfValue(bs: seq<byte>)
    ensures BeBytes(BeValue(bs), |bs|) == bs
    ensures BeValue(bs) < Pow256(|bs|)
  {
    if bs != [] {
      BeBytesOfValue(bs[..|bs| - 1]);
    }
  }

  /** The two orders mirror each other. */
  lemma {:induction false} OrdersMirror(bs: seq<byte>, cs: seq<byte>)
    requires |bs| == |cs| && forall i :: 0 <= i < |bs| ==> cs[i] == bs[|bs| - 1 - i]
    ensures BeValue(bs) == LeValue(cs)
    decreases |bs|
  {
    if bs != [] {
      OrdersMirror(bs[..|bs| - 1], cs[1..]);
    }
  }

  lemma EightBytes()
    ensures Pow256(8) == 0x1_0000_0000_0000_0000 && Pow256(4) == 0x1_0000_0000
  {
    assert Pow256(4) == 0x1_0000_0000;
    assert Pow256(6) == 0x1_0000_0000_0000;
  }
}
