/** Page tables read as one flat sequence, and the address arithmetic shared by data memory and
    instruction memory. The page size is a parameter throughout. */
module Paging {
  import opened Arith

  /** MerryDAddress and MerryAddress keep the page and the offset in 32-bit fields. */
  const FIELD: nat := 0x1_0000_0000

  datatype Address = Address(page: nat, offset: nat)

  function Deduce(address: nat, size: nat): (d: Address)
    requires 0 < size <= FIELD
    ensures d.offset < size
  {
    Address(address / size % FIELD, address % size)
  }

  /** Where a page starts in flat memory: page * size, by repeated addition. */
  function Start(page: nat, size: nat): nat {
    if page == 0 then 0 else Start(page - 1, size) + size
  }

  lemma {:induction false} StartIsProduct(page: nat, size: nat)
    ensures Start(page, size) == page * size
  {
    if page > 0 {
      StartIsProduct(page - 1, size);
      Distribute(page - 1, 1, size);
    }
  }

  lemma StartGrows(a: nat, b: nat, size: nat)
    requires a <= b
    ensures Start(a, size) <= Start(b, size)
  {
    StartIsProduct(a, size);
    StartIsProduct(b, size);
    ScaleUp(a, b, size);
  }

  /** The flat address that an access really goes to, after the page number is truncated. */
  function Effective(address: nat, size: nat): nat
    requires 0 < size <= FIELD
  {
    Start(Deduce(address, size).page, size) + Deduce(address, size).offset
  }

  /** An offset into a page is below the end of n pages exactly when the page is. */
  lemma PageBelow(page: nat, offset: nat, size: nat, n: nat)
    requires offset < size
    ensures page < n <==> Start(page, size) + offset < Start(n, size)
  {
    if page < n {
      StartGrows(page + 1, n, size);
    } else {
      StartGrows(n, page, size);
    }
  }

  lemma StartDivides(a: nat, size: nat)
    requires size > 0
    ensures a == Start(a / size, size) + a % size
  {
    Divide(a, size);
    StartIsProduct(a / size, size);
  }

  lemma StartRemainder(page: nat, offset: nat, size: nat)
    requires offset < size
    ensures (Start(page, size) + offset) / size == page && (Start(page, size) + offset) % size == offset
  {
    StartIsProduct(page, size);
    Remainder(Start(page, size) + offset, size, page, offset);
  }

  /** Moving on inside a page changes only the offset. */
  lemma DeduceWithin(address: nat, size: nat, i: nat)
    requires 0 < size <= FIELD && address % size + i < size
    ensures Deduce(address + i, size) == Address(Deduce(address, size).page, Deduce(address, size).offset + i)
  {
    StartDivides(address, size);
    StartRemainder(address / size, address % size + i, size);
  }

  /** What the 32-bit page field does: below 2^32 pages nothing is lost, above, the access goes to
      a lower address. */
  lemma EffectiveIsIdentityBelowLimit(address: nat, size: nat)
    requires 0 < size <= FIELD
    ensures Effective(address, size) < FIELD * size
    ensures Effective(address, size) == address <==> address < FIELD * size
  {
    StartDivides(address, size);
    StartIsProduct(FIELD, size);
    PageBelow(address / size, address % size, size, FIELD);
    PageBelow(address / size % FIELD, address % size, size, FIELD);
  }

  lemma SplitPage(page: nat, offset: nat, size: nat)
    ensures Start(page, size) + offset == page / FIELD * (FIELD * size) + (Start(page % FIELD, size) + offset)
  {
    var q, r := page / FIELD, page % FIELD;
    Divide(page, FIELD);
    StartIsProduct(page, size);
    StartIsProduct(r, size);
    Distribute(q * FIELD, r, size);
    Reassociate(q, FIELD, size);
  }

  /** And where it goes: to the address modulo the 2^32 pages. */
  lemma EffectiveIsRemainder(address: nat, size: nat)
    requires 0 < size <= FIELD
    ensures Effective(address, size) == address % (FIELD * size)
  {
    StartDivides(address, size);
    SplitPage(address / size, address % size, size);
    EffectiveIsIdentityBelowLimit(address, size);
    Remainder(address, FIELD * size, address / size / FIELD, Effective(address, size));
  }

  /** The page-count test of the copy loops. What is left after the first page is cut into whole
      pages and a remainder; counting them against the table is the flat bound. */
  lemma PageCountTest(page: nat, offset: nat, size: nat, n: nat, length: nat)
    requires offset < size && size - offset <= length
    ensures var left := length - (size - offset);
            && left == Start(left / size, size) + left % size
            && (page + left / size + (if left % size > 0 then 1 else 0) < n <==>
                Start(page, size) + offset + length <= Start(n, size))
  {
    var left := length - (size - offset);
    StartDivides(left, size);
    CountPages(page, size, n, left / size, left % size);
  }

  lemma CountPages(page: nat, size: nat, n: nat, whole: nat, rest: nat)
    requires rest < size
    ensures page + whole + (if rest > 0 then 1 else 0) < n <==>
            Start(page + 1, size) + Start(whole, size) + rest <= Start(n, size)
  {
    var k := page + 1 + whole;
    StartAdds(page + 1, whole, size);
    PageBelow(k, rest, size, n);
    if k <= n {
      StartGrows(k, n, size);
    } else {
      StartGrows(n + 1, k, size);
    }
  }

  lemma {:induction false} StartAdds(a: nat, b: nat, size: nat)
    ensures Start(a + b, size) == Start(a, size) + Start(b, size)
  {
    if b > 0 {
      StartAdds(a, b - 1, size);
    }
  }

  // Pages as slices of one flat sequence

  /** `part` is page number `page` of the flat memory. */
  ghost predicate IsPage<T>(f: seq<T>, size: nat, page: nat, part: seq<T>) {
    Start(page, size) + size <= |f| && part == f[Start(page, size)..Start(page, size) + size]
  }

  function Splice<T>(f: seq<T>, at: nat, part: seq<T>): (g: seq<T>)
    requires at + |part| <= |f|
    ensures |g| == |f|
  {
    f[..at] + part + f[at + |part|..]
  }

  /** Part of one page, read from the flat memory. */
  lemma PageSlice<T>(f: seq<T>, size: nat, page: nat, part: seq<T>, at: nat, n: nat)
    requires IsPage(f, size, page, part) && at + n <= size
    ensures f[Start(page, size) + at..Start(page, size) + at + n] == part[at..at + n]
  {
    SliceOfSlice(f, Start(page, size), Start(page, size) + size, at, at + n);
  }

  lemma SliceOfSlice<T>(f: seq<T>, a: nat, b: nat, i: nat, j: nat)
    requires a <= b <= |f| && i <= j <= b - a
    ensures f[a..b][i..j] == f[a + i..a + j]
  {
    forall k | 0 <= k < j - i ensures f[a..b][i..j][k] == f[a + i..a + j][k] {
    }
  }

  /** Writing into one page splices the flat memory at that place ... */
  lemma PageUpdate<T>(f: seq<T>, size: nat, page: nat, part: seq<T>, at: nat, put: seq<T>)
    requires IsPage(f, size, page, part) && at + |put| <= size
    ensures IsPage(Splice(f, Start(page, size) + at, put), size, page, Splice(part, at, put))
  {
    var start := Start(page, size);
    var before, after := f[..start], f[start + size..];
    assert f == before + part + after;
    SpliceOfMiddle(before, part, after, at, put);
    MiddleOf(before, Splice(part, at, put), after);
  }

  lemma SpliceOfMiddle<T>(a: seq<T>, b: seq<T>, c: seq<T>, at: nat, part: seq<T>)
    requires at + |part| <= |b|
    ensures Splice(a + b + c, |a| + at, part) == a + Splice(b, at, part) + c
  {
  }

  lemma MiddleOf<T>(a: seq<T>, b: seq<T>, c: seq<T>)
    ensures (a + b + c)[|a|..|a| + |b|] == b
  {
  }

  lemma PagesApart(page: nat, other: nat, size: nat)
    requires page != other
    ensures Start(page, size) + size <= Start(other, size) || Start(other, size) + size <= Start(page, size)
  {
    if other < page {
      StartGrows(other + 1, page, size);
    } else {
      StartGrows(page + 1, other, size);
    }
  }

  /** ... and leaves every other page as it was. */
  lemma OtherPage<T>(f: seq<T>, size: nat, page: nat, other: nat, part: seq<T>, at: nat, put: seq<T>)
    requires IsPage(f, size, other, part) && other != page && at + |put| <= size
    requires Start(page, size) + size <= |f|
    ensures IsPage(Splice(f, Start(page, size) + at, put), size, other, part)
  {
    PagesApart(page, other, size);
    SpliceElsewhere(f, Start(page, size) + at, put, Start(other, size), size);
  }

  lemma SpliceOne<T>(f: seq<T>, at: nat, x: T)
    requires at < |f|
    ensures Splice(f, at, [x]) == f[at := x]
  {
  }

  /** The same in place. */
  method Overwrite<T>(a: array<T>, at: nat, put: seq<T>)
    requires at + |put| <= a.Length
    modifies a
    ensures a[..] == Splice(old(a[..]), at, put)
  {
    forall k | at <= k < at + |put| {
      a[k] := put[k - at];
    }
  }

  lemma SpliceLeft<T>(a: seq<T>, b: seq<T>, at: nat, part: seq<T>)
    requires at + |part| <= |a|
    ensures Splice(a + b, at, part) == Splice(a, at, part) + b
  {
  }

  /** Two adjacent splices are one. */
  lemma SpliceAdjacent<T>(f: seq<T>, at: nat, first: seq<T>, second: seq<T>)
    requires at + |first| + |second| <= |f|
    ensures Splice(Splice(f, at, first), at + |first|, second) == Splice(f, at, first + second)
  {
  }

  /** A splice covered by a later one leaves no trace. */
  lemma SpliceCovered<T>(f: seq<T>, at: nat, first: seq<T>, second: seq<T>)
    requires |first| <= |second| && at + |second| <= |f|
    ensures Splice(Splice(f, at, first), at, second) == Splice(f, at, second)
  {
  }

  lemma SpliceReadBack<T>(f: seq<T>, at: nat, part: seq<T>, i: nat, n: nat)
    requires at + |part| <= |f| && i + n <= |part|
    ensures Splice(f, at, part)[at + i..at + i + n] == part[i..i + n]
  {
  }

  lemma SpliceElsewhere<T>(f: seq<T>, at: nat, part: seq<T>, i: nat, n: nat)
    requires at + |part| <= |f| && i + n <= |f|
    requires i + n <= at || at + |part| <= i
    ensures Splice(f, at, part)[i..i + n] == f[i..i + n]
  {
  }
}
