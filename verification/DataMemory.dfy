/** merry/merry_dmemory.c: the paged data memory, its typed accesses and its copies over any number
    of pages, each proved to act on one flat byte sequence. */
module DataMemory {
  import opened Wrappers
  import opened Arith
  import opened Paging
  import opened Bytes

  const MEM_INVALID_ACCESS: nat := 52    // MERRY_MEM_INVALID_ACCESS

  // What the accesses mean on flat memory

  predicate Fits(f: seq<byte>, at: nat, n: nat) {
    at < |f| && at + n <= |f|
  }

  /** A block write: all of it where it fits. Where it does not, but starts inside, the bytes up to
      the end of the first page have been copied before the page count is tested. */
  function Written(f: seq<byte>, size: nat, at: nat, part: seq<byte>): (g: seq<byte>)
    requires 0 < size
    ensures |g| == |f|
  {
    if Fits(f, at, |part|) then Splice(f, at, part)
    else if at < |f| then Splice(f, at, part[..Tail(|f|, size, at)])
    else f
  }

  /** The bytes from `at` to the end of its page. */
  function Tail(total: nat, size: nat, at: nat): nat
    requires 0 < size && at < total
  {
    if size - at % size <= total - at then size - at % size else total - at
  }

  lemma SpliceMore(f: seq<byte>, at: nat, data: seq<byte>, k: nat, n: nat)
    requires k + n <= |data| && at + k + n <= |f|
    ensures Splice(Splice(f, at, data[..k]), at + k, data[k..k + n]) == Splice(f, at, data[..k + n])
  {
    SpliceAdjacent(f, at, data[..k], data[k..k + n]);
    assert data[..k] + data[k..k + n] == data[..k + n];
  }

  /** Written, for an address given by its page and offset in a memory of n whole pages. */
  lemma WrittenFromPage(f: seq<byte>, size: nat, n: nat, page: nat, offset: nat, part: seq<byte>)
    requires |f| == Start(n, size) && offset < size
    ensures var at := Start(page, size) + offset;
            && (page < n <==> at < |f|)
            && (page >= n ==> Written(f, size, at, part) == f)
            && (page < n && at + |part| <= |f| ==> Written(f, size, at, part) == Splice(f, at, part))
            && (page < n && at + |part| > |f| ==>
                  at + (size - offset) <= |f| && size - offset <= |part| &&
                  Written(f, size, at, part) == Splice(f, at, part[..size - offset]))
  {
    StartRemainder(page, offset, size);
    PageBelow(page, offset, size, n);
    if page < n {
      StartGrows(page + 1, n, size);
    }
  }

  /** The same for the address itself. */
  lemma WrittenAt(f: seq<byte>, size: nat, n: nat, address: nat, part: seq<byte>)
    requires 0 < size <= FIELD && |f| == Start(n, size)
    ensures var Address(page, offset) := Deduce(address, size); var at := Effective(address, size);
            && at == Start(page, size) + offset && (page < n <==> at < |f|)
            && (page >= n ==> Written(f, size, at, part) == f)
            && (page < n && at + |part| <= |f| ==> Written(f, size, at, part) == Splice(f, at, part))
            && (page < n && at + |part| > |f| ==>
                  at + (size - offset) <= |f| && size - offset <= |part| &&
                  Written(f, size, at, part) == Splice(f, at, part[..size - offset]))
  {
    WrittenFromPage(f, size, n, Deduce(address, size).page, Deduce(address, size).offset, part);
  }

  // Typed accesses on flat memory

  /** What all typed accesses test: the page exists and the last byte is in it. */
  predicate TypedAccess(pageCount: nat, size: nat, address: nat, width: nat)
    requires 0 < size <= FIELD
  {
    var addr := Deduce(address, size);
    addr.page < pageCount && addr.offset + width - 1 < size
  }

  /** An access inside the bytes of a successful access succeeds too, on the same page. */
  lemma TypedInside(pageCount: nat, size: nat, address: nat, width: nat, i: nat, n: nat)
    requires 0 < size <= FIELD
    requires TypedAccess(pageCount, size, address, width) && 0 < n && i + n <= width
    ensures TypedAccess(pageCount, size, address + i, n)
    ensures Effective(address + i, size) == Effective(address, size) + i
    ensures Effective(address, size) + width <= Start(pageCount, size)
  {
    DeduceWithin(address, size, i);
    StartGrows(Deduce(address, size).page + 1, pageCount, size);
  }

  function TypedRead(f: seq<byte>, pageCount: nat, size: nat, address: nat, width: nat): Option<nat>
    requires 0 < size <= FIELD && |f| == Start(pageCount, size) && 0 < width
  {
    if TypedAccess(pageCount, size, address, width) then
      TypedInside(pageCount, size, address, width, 0, width);
      Some(LeValue(f[Effective(address, size)..Effective(address, size) + width]))
    else None
  }

  function TypedWrite(f: seq<byte>, pageCount: nat, size: nat, address: nat, width: nat, value: nat): (g: seq<byte>)
    requires 0 < size <= FIELD && |f| == Start(pageCount, size) && 0 < width
    ensures |g| == |f|
  {
    if TypedAccess(pageCount, size, address, width) then
      TypedInside(pageCount, size, address, width, 0, width);
      Splice(f, Effective(address, size), LeBytes(value, width))
    else f
  }

  lemma ValueReadBack(f: seq<byte>, at: nat, width: nat, value: nat, i: nat, n: nat)
    requires at + width <= |f| && i + n <= width
    ensures LeValue(Splice(f, at, LeBytes(value, width))[at + i..at + i + n]) ==
            DropBytes(value, i) % Pow256(n)
  {
    SpliceReadBack(f, at, LeBytes(value, width), i, n);
    LeSlice(value, width, i, n);
  }

  lemma TypedReadIs(f: seq<byte>, pageCount: nat, size: nat, address: nat, width: nat, at: nat)
    requires 0 < size <= FIELD && |f| == Start(pageCount, size) && 0 < width
    requires TypedAccess(pageCount, size, address, width) && at == Effective(address, size)
    ensures at + width <= |f|
    ensures TypedRead(f, pageCount, size, address, width) == Some(LeValue(f[at..at + width]))
  {
    TypedInside(pageCount, size, address, width, 0, width);
  }

  /** The same for a read out of the bytes that a write put there. */
  lemma TypedReadOfSplice(f: seq<byte>, g: seq<byte>, pageCount: nat, size: nat, address: nat, width: nat, value: nat,
                          i: nat, n: nat, at: nat)
    requires 0 < size <= FIELD && |g| == Start(pageCount, size) && at + width <= |f|
    requires g == Splice(f, at, LeBytes(value, width)) && 0 < n && i + n <= width
    requires TypedAccess(pageCount, size, address, n) && at + i == Effective(address, size)
    ensures TypedRead(g, pageCount, size, address, n) == Some(DropBytes(value, i) % Pow256(n))
  {
    TypedReadIs(g, pageCount, size, address, n, at + i);
    ValueReadBack(f, at, width, value, i, n);
  }

  /** A typed write that succeeds and then a read of any width inside the bytes written: the read
      succeeds and gives that little-endian slice of the value. */
  lemma TypedReadBack(f: seq<byte>, pageCount: nat, size: nat, address: nat, width: nat, value: nat,
                      i: nat, n: nat)
    requires 0 < size <= FIELD && |f| == Start(pageCount, size)
    requires TypedAccess(pageCount, size, address, width) && 0 < n && i + n <= width
    ensures TypedRead(TypedWrite(f, pageCount, size, address, width, value), pageCount, size, address + i, n) ==
            Some(DropBytes(value, i) % Pow256(n))
  {
    var g := TypedWrite(f, pageCount, size, address, width, value);
    TypedInside(pageCount, size, address, width, i, n);
    TypedReadOfSplice(f, g, pageCount, size, address + i, width, value, i, n, Effective(address, size));
  }

  /** A typed write leaves every typed read of other bytes as it was, whether it succeeds or not. */
  lemma TypedNoInterference(f: seq<byte>, pageCount: nat, size: nat, address: nat, width: nat, value: nat,
                            other: nat, otherWidth: nat)
    requires 0 < size <= FIELD && |f| == Start(pageCount, size) && 0 < width && 0 < otherWidth
    requires Effective(address, size) + width <= Effective(other, size) ||
             Effective(other, size) + otherWidth <= Effective(address, size)
    ensures TypedRead(TypedWrite(f, pageCount, size, address, width, value), pageCount, size, other, otherWidth) ==
            TypedRead(f, pageCount, size, other, otherWidth)
  {
    if TypedAccess(pageCount, size, address, width) && TypedAccess(pageCount, size, other, otherWidth) {
      TypedInside(pageCount, size, address, width, 0, width);
      TypedInside(pageCount, size, other, otherWidth, 0, otherWidth);
      SpliceElsewhere(f, Effective(address, size), LeBytes(value, width), Effective(other, size), otherWidth);
    }
  }

  // Typed accesses and block accesses meet

  /** A typed read of bytes that a block write put there gives those bytes, lowest first. */
  lemma TypedReadsBlock(f: seq<byte>, pageCount: nat, size: nat, address: nat, width: nat, at: nat, part: seq<byte>)
    requires 0 < size <= FIELD && |f| == Start(pageCount, size) && 0 < width
    requires Fits(f, at, |part|) && at <= Effective(address, size) && Effective(address, size) + width <= at + |part|
    requires address % size + width <= size
    ensures var i := Effective(address, size) - at;
            TypedRead(Written(f, size, at, part), pageCount, size, address, width) == Some(LeValue(part[i..i + width]))
  {
    var i := Effective(address, size) - at;
    PageBelow(Deduce(address, size).page, Deduce(address, size).offset, size, pageCount);
    TypedReadIs(Written(f, size, at, part), pageCount, size, address, width, at + i);
    SpliceReadBack(f, at, part, i, width);
  }

  /** A block read of what a typed write put there gives the bytes of the value, lowest first. */
  lemma BlockReadsTyped(f: seq<byte>, pageCount: nat, size: nat, address: nat, width: nat, value: nat, i: nat)
    requires 0 < size <= FIELD && |f| == Start(pageCount, size) && i < width
    requires address / size % FIELD < pageCount && address % size + width <= size
    ensures var g, at := TypedWrite(f, pageCount, size, address, width, value), Effective(address, size);
            at + width <= |g| && g[at + i] == value / Pow256(i) % 256
  {
    TypedInside(pageCount, size, address, width, 0, width);
    SpliceReadBack(f, Effective(address, size), LeBytes(value, width), i, 1);
    LeDigit(value, width, i);
  }

  function Zeros(n: nat): (f: seq<byte>)
    ensures |f| == n
  {
    seq(n, _ => 0)
  }

  /** The whole pages and the rest behind the first page, and the test whether they are there. */
  method CountTest(page: nat, offset: nat, size: nat, count: nat, length: nat)
    returns (noOfPages: nat, remaining: nat, fits: bool)
    requires offset < size && size - offset <= length
    ensures remaining < size && length - (size - offset) == Start(noOfPages, size) + remaining
    ensures fits <==> page + noOfPages + (if remaining > 0 then 1 else 0) < count
    ensures fits <==> Start(page, size) + offset + length <= Start(count, size)
  {
    var left := length - (size - offset);
    noOfPages := left / size;
    remaining := left % size;
    PageCountTest(page, offset, size, count, length);
    fits := !(page + noOfPages + (if remaining > 0 then 1 else 0) >= count);
  }

  class DMemory {
    const size: nat                    // _MERRY_MEMORY_ADDRESSES_PER_PAGE_
    var pages: seq<array<byte>>
    var error: nat

    /** The memory as a program sees it: one byte per address. */
    ghost var mem: seq<byte>

    ghost predicate Valid()
      reads this, pages
    {
      && 0 < size <= FIELD && |pages| <= FIELD
      && |mem| == Start(|pages|, size)
      && (forall i :: 0 <= i < |pages| ==> pages[i].Length == size)
      && (forall i, j :: 0 <= i < j < |pages| ==> pages[i] != pages[j])
      && (forall i :: 0 <= i < |pages| ==> IsPage(mem, size, i, pages[i][..]))
    }

    /** init_provided: the pages mapped for the reader become the pages of the memory. */
    constructor (size: nat, mapped: seq<array<byte>>)
      requires 0 < size <= FIELD && |mapped| <= FIELD
      requires forall i :: 0 <= i < |mapped| ==> mapped[i].Length == size
      requires forall i, j :: 0 <= i < j < |mapped| ==> mapped[i] != mapped[j]
      ensures Valid() && this.size == size && pages == mapped && error == 0
    {
      this.size := size;
      error := 0;
      pages := [];
      mem := [];
      new;
      for i := 0 to |mapped|
        invariant pages == mapped[..i] && error == 0 && this.size == size
        invariant Valid()
      {
        pages := pages + [mapped[i]];
        mem := mem + mapped[i][..];
      }
    }

    /** add_new_page: one zeroed page at the end; everything there before stays. */
    method AddNewPage()
      requires Valid() && |pages| < FIELD
      modifies this`pages, this`mem
      ensures Valid() && |pages| == old(|pages|) + 1
      ensures pages[..old(|pages|)] == old(pages) && fresh(pages[old(|pages|)])
      ensures mem == old(mem) + Zeros(size)
    {
      var page := new byte[size](_ => 0);
      pages := pages + [page];
      mem := mem + Zeros(size);
    }

    /** Bytes put into one page change that page ... */
    lemma PageSpliced(page: nat, at: nat, put: seq<byte>)
      requires Valid() && page < |pages| && at + |put| <= size
      ensures Start(page, size) + size <= |mem|
      ensures IsPage(Splice(mem, Start(page, size) + at, put), size, page, Splice(pages[page][..], at, put))
    {
      assert IsPage(mem, size, page, pages[page][..]);
      PageUpdate(mem, size, page, pages[page][..], at, put);
    }

    /** ... and no other. */
    lemma OtherPageKept(page: nat, at: nat, put: seq<byte>, i: nat)
      requires Valid() && page < |pages| && at + |put| <= size && i < |pages| && i != page
      requires Start(page, size) + size <= |mem|
      ensures IsPage(Splice(mem, Start(page, size) + at, put), size, i, pages[i][..])
    {
      assert IsPage(mem, size, i, pages[i][..]);
      OtherPage(mem, size, page, i, pages[i][..], at, put);
    }

    /** Put bytes into a page. */
    method Store(page: nat, at: nat, put: seq<byte>)
      requires Valid() && page < |pages| && at + |put| <= size
      modifies this`mem, pages[page]
      ensures Valid()
      ensures Start(page, size) + at + |put| <= |mem|
      ensures mem == Splice(old(mem), Start(page, size) + at, put)
    {
      PageSpliced(page, at, put);
      forall i | 0 <= i < |pages| && i != page
        ensures IsPage(Splice(mem, Start(page, size) + at, put), size, i, pages[i][..])
      {
        OtherPageKept(page, at, put, i);
      }
      Overwrite(pages[page], at, put);
      mem := Splice(mem, Start(page, size) + at, put);
    }

    /** memcpy into a page. */
    method CopyIn(page: nat, at: nat, src: array<byte>, from: nat, n: nat)
      requires Valid() && page < |pages| && at + n <= size && from + n <= src.Length
      requires src !in pages
      modifies this`mem, pages[page]
      ensures Valid() && src[..] == old(src[..])
      ensures Start(page, size) + at + n <= |mem|
      ensures mem == Splice(old(mem), Start(page, size) + at, src[from..from + n])
    {
      Store(page, at, src[from..from + n]);
    }

    /** memcpy out of a page. */
    method CopyOut(page: nat, at: nat, dst: array<byte>, to: nat, n: nat)
      requires Valid() && page < |pages| && at + n <= size && to + n <= dst.Length
      requires dst !in pages
      modifies dst
      ensures Valid()
      ensures Start(page, size) + at + n <= |mem|
      ensures dst[..] == Splice(old(dst[..]), to, mem[Start(page, size) + at..Start(page, size) + at + n])
    {
      PageSlice(mem, size, page, pages[page][..], at, n);
      assert pages[page][..][at..at + n] == pages[page][at..at + n];
      Overwrite(dst, to, pages[page][at..at + n]);
    }

    /** write_bytes_maybe_over_multiple_pages. A NULL array is accepted and changes nothing. */
    method WriteBytes(address: nat, length: nat, data: array?<byte>) returns (ok: bool)
      requires Valid()
      requires data != null ==> length <= data.Length && data !in pages
      modifies this`error, this`mem, pages
      ensures Valid()
      ensures ok == (data == null || Fits(old(mem), Effective(address, size), length))
      ensures mem == if data == null then old(mem)
                          else Written(old(mem), size, Effective(address, size), data[..length])
      ensures error == if ok then old(error) else MEM_INVALID_ACCESS
    {
      if data == null {
        return true;
      }
      var addr := Deduce(address, size);
      ghost var part := data[..length];
      WrittenAt(mem, size, |pages|, address, part);
      if addr.page >= |pages| {
        error := MEM_INVALID_ACCESS;
        return false;
      }
      ok := WriteFrom(addr.page, addr.offset, length, data);
      assert data[..length] == part;
    }

    /** The body of the write once the first page is known to exist. */
    method WriteFrom(page: nat, offset: nat, length: nat, data: array<byte>) returns (ok: bool)
      requires Valid() && page < |pages| && offset < size
      requires length <= data.Length && data !in pages
      modifies this`error, this`mem, pages
      ensures Valid() && data[..] == old(data[..])
      ensures ok == (Start(page, size) + offset + length <= |mem|)
      ensures ok ==> mem == Splice(old(mem), Start(page, size) + offset, data[..length])
      ensures !ok ==> size - offset <= length && Start(page, size) + size <= |mem|
      ensures !ok ==> mem == Splice(old(mem), Start(page, size) + offset, data[..size - offset])
      ensures error == if ok then old(error) else MEM_INVALID_ACCESS
    {
      var distFromEnd := size - offset;
      StartGrows(page + 1, |pages|, size);
      if distFromEnd > length {
        CopyIn(page, offset, data, 0, length);
        return true;
      }
      ghost var before := mem;
      CopyIn(page, offset, data, 0, distFromEnd);
      ok := WriteBehind(page, offset, length, data, before);
    }

    /** The page-count test and what follows it, with the first page already written. */
    method WriteBehind(page: nat, offset: nat, length: nat, data: array<byte>, ghost before: seq<byte>)
      returns (ok: bool)
      requires Valid() && page < |pages| && offset < size && size - offset <= length
      requires length <= data.Length && data !in pages
      requires |before| == |mem| && Start(page, size) + size <= |mem|
      requires mem == Splice(before, Start(page, size) + offset, data[..size - offset])
      modifies this`error, this`mem, pages
      ensures Valid() && data[..] == old(data[..])
      ensures ok == (Start(page, size) + offset + length <= |mem|)
      ensures ok ==> mem == Splice(before, Start(page, size) + offset, data[..length])
      ensures !ok ==> mem == old(mem)
      ensures error == if ok then old(error) else MEM_INVALID_ACCESS
    {
      var noOfPages, remaining, fits := CountTest(page, offset, size, |pages|, length);
      if !fits {
        error := MEM_INVALID_ACCESS;
        return false;
      }
      WriteFollowing(page + 1, data, size - offset, noOfPages, remaining, length,
                     Start(page, size) + offset, before);
      ok := true;
    }

    /** One more memcpy of the block: bytes curr.. of `data` to the start of `page`. */
    method CopyNext(page: nat, data: array<byte>, curr: nat, n: nat, ghost at: nat, ghost before: seq<byte>)
      requires Valid() && data !in pages && page < |pages| && n <= size
      requires curr + n <= data.Length && at + curr + n <= |before|
      requires Start(page, size) == at + curr
      requires mem == Splice(before, at, data[..curr])
      modifies this`mem, pages[page]
      ensures Valid() && data[..] == old(data[..])
      ensures mem == Splice(before, at, data[..curr + n])
    {
      SpliceMore(before, at, data[..], curr, n);
      assert data[..][..curr] == data[..curr] && data[..][..curr + n] == data[..curr + n];
      assert data[..][curr..curr + n] == data[curr..curr + n];
      CopyIn(page, 0, data, curr, n);
    }

    /** The rest of the copy: whole pages, then the remainder, each from where the last one ended. */
    method WriteFollowing(firstPage: nat, data: array<byte>, start: nat, noOfPages: nat, remaining: nat,
                          length: nat, ghost at: nat, ghost before: seq<byte>)
      requires Valid() && data !in pages && remaining < size
      requires firstPage + noOfPages + (if remaining > 0 then 1 else 0) <= |pages|
      requires length == start + Start(noOfPages, size) + remaining && length <= data.Length
      requires Start(firstPage, size) == at + start && at + length <= |before|
      requires mem == Splice(before, at, data[..start])
      modifies this`mem, pages
      ensures Valid() && data[..] == old(data[..])
      ensures mem == Splice(before, at, data[..length])
    {
      var page: nat, curr: nat := firstPage, start;
      for i := 0 to noOfPages
        invariant Valid() && data[..] == old(data[..])
        invariant page == firstPage + i
        invariant Start(page, size) == at + curr
        invariant length == curr + Start(noOfPages - i, size) + remaining
        invariant mem == Splice(before, at, data[..curr])
      {
        CopyNext(page, data, curr, size, at, before);
        curr := curr + size;
        page := page + 1;
      }
      if remaining > 0 {
        CopyNext(page, data, curr, remaining, at, before);
      }
    }

    /** get_bytes_maybe_over_multiple_pages: a new array with the bytes and a NUL behind them, under
        exactly the flat bound of the write. */
    method GetBytes(address: nat, length: nat) returns (r: array?<byte>)
      requires Valid()
      modifies this`error
      ensures Valid()
      ensures r != null <==> Fits(mem, Effective(address, size), length)
      ensures r != null ==> fresh(r)
      ensures r != null ==>
                r[..] == mem[Effective(address, size)..Effective(address, size) + length] + [0]
      ensures error == if r != null then old(error) else MEM_INVALID_ACCESS
    {
      var dst := new byte[length + 1](_ => 0);
      var addr := Deduce(address, size);
      WrittenAt(mem, size, |pages|, address, []);
      if addr.page >= |pages| {
        error := MEM_INVALID_ACCESS;
        return null;
      }
      var ok := ReadFrom(addr.page, addr.offset, length, dst);
      r := if ok then dst else null;
    }

    method ReadFrom(page: nat, offset: nat, length: nat, dst: array<byte>) returns (ok: bool)
      requires Valid() && page < |pages| && offset < size
      requires dst.Length == length + 1 && dst[length] == 0 && dst !in pages
      modifies this`error, dst
      ensures Valid()
      ensures ok == (Start(page, size) + offset + length <= |mem|)
      ensures ok ==> dst[..] == mem[Start(page, size) + offset..Start(page, size) + offset + length] + [0]
      ensures error == if ok then old(error) else MEM_INVALID_ACCESS
    {
      var distFromEnd := size - offset;
      StartGrows(page + 1, |pages|, size);
      if distFromEnd > length {
        CopyOut(page, offset, dst, 0, length);
        return true;
      }
      CopyOut(page, offset, dst, 0, distFromEnd);
      ok := ReadBehind(page, offset, length, dst);
    }

    /** The page-count test and what follows it, with the first page already read. */
    method ReadBehind(page: nat, offset: nat, length: nat, dst: array<byte>) returns (ok: bool)
      requires Valid() && page < |pages| && offset < size && size - offset <= length
      requires dst.Length == length + 1 && dst[length] == 0 && dst !in pages
      requires Start(page, size) + size <= |mem|
      requires dst[..size - offset] == mem[Start(page, size) + offset..Start(page, size) + size]
      modifies this`error, dst
      ensures Valid()
      ensures ok == (Start(page, size) + offset + length <= |mem|)
      ensures ok ==> dst[..] == mem[Start(page, size) + offset..Start(page, size) + offset + length] + [0]
      ensures error == if ok then old(error) else MEM_INVALID_ACCESS
    {
      var left := length - (size - offset);
      var noOfPages := left / size;
      var remaining := left % size;
      PageCountTest(page, offset, size, |pages|, length);
      if page + noOfPages + (if remaining > 0 then 1 else 0) >= |pages| {
        error := MEM_INVALID_ACCESS;
        return false;
      }
      ReadFollowing(page + 1, dst, size - offset, noOfPages, remaining, length, Start(page, size) + offset);
      ok := true;
    }

    method ReadNext(page: nat, dst: array<byte>, curr: nat, n: nat, ghost at: nat)
      requires Valid() && dst !in pages && page < |pages| && n <= size
      requires curr + n < dst.Length && at + curr + n <= |mem|
      requires Start(page, size) == at + curr
      requires dst[..curr] == mem[at..at + curr]
      modifies dst
      ensures Valid()
      ensures dst[..curr + n] == mem[at..at + curr + n]
      ensures dst[dst.Length - 1] == old(dst[dst.Length - 1])
    {
      CopyOut(page, 0, dst, curr, n);
      assert dst[..curr + n] == dst[..][..curr + n];
      assert mem[at..at + curr + n] == mem[at..at + curr] + mem[at + curr..at + curr + n];
    }

    method ReadFollowing(firstPage: nat, dst: array<byte>, start: nat, noOfPages: nat, remaining: nat,
                         length: nat, ghost at: nat)
      requires Valid() && dst !in pages && remaining < size
      requires firstPage + noOfPages + (if remaining > 0 then 1 else 0) <= |pages|
      requires length == start + Start(noOfPages, size) + remaining
      requires dst.Length == length + 1 && dst[length] == 0
      requires Start(firstPage, size) == at + start && at + length <= |mem|
      requires dst[..start] == mem[at..at + start]
      modifies dst
      ensures Valid()
      ensures dst[..] == mem[at..at + length] + [0]
    {
      var page: nat, curr: nat := firstPage, start;
      for i := 0 to noOfPages
        invariant Valid() && dst[length] == 0
        invariant page == firstPage + i
        invariant Start(page, size) == at + curr
        invariant length == curr + Start(noOfPages - i, size) + remaining
        invariant dst[..curr] == mem[at..at + curr]
      {
        ReadNext(page, dst, curr, size, at);
        curr := curr + size;
        page := page + 1;
      }
      if remaining > 0 {
        ReadNext(page, dst, curr, remaining, at);
      }
      assert dst[..] == dst[..length] + [dst[length]];
    }

    /** read_byte, read_word, read_dword, read_qword. The second test is vacuous for bytes, which is
        why the C code leaves it out there. */
    method ReadValue(address: nat, width: nat) returns (r: Option<nat>)
      requires Valid() && width in {1, 2, 4, 8}
      modifies this`error
      ensures Valid()
      ensures r.Some? <==> address / size % FIELD < |pages| && address % size + width <= size
      ensures r == TypedRead(mem, |pages|, size, address, width)
      ensures error == if r.Some? then old(error) else MEM_INVALID_ACCESS
    {
      var addr := Deduce(address, size);
      if addr.page >= |pages| {
        error := MEM_INVALID_ACCESS;
        return None;
      }
      if addr.offset + (width - 1) >= size {
        error := MEM_INVALID_ACCESS;
        return None;
      }
      assert IsPage(mem, size, addr.page, pages[addr.page][..]);
      PageSlice(mem, size, addr.page, pages[addr.page][..], addr.offset, width);
      assert pages[addr.page][..][addr.offset..addr.offset + width]
          == pages[addr.page][addr.offset..addr.offset + width];
      r := Some(LeValue(pages[addr.page][addr.offset..addr.offset + width]));
    }

    /** write_byte, write_word, write_dword, write_qword: stores the low `width` bytes. */
    method WriteValue(address: nat, width: nat, value: nat) returns (ok: bool)
      requires Valid() && width in {1, 2, 4, 8}
      modifies this`error, this`mem, pages
      ensures Valid()
      ensures ok <==> address / size % FIELD < |pages| && address % size + width <= size
      ensures mem == TypedWrite(old(mem), |pages|, size, address, width, value)
      ensures error == if ok then old(error) else MEM_INVALID_ACCESS
    {
      var addr := Deduce(address, size);
      if addr.page >= |pages| {
        error := MEM_INVALID_ACCESS;
        return false;
      }
      if addr.offset + (width - 1) >= size {
        error := MEM_INVALID_ACCESS;
        return false;
      }
      Store(addr.page, addr.offset, LeBytes(value, width));
      ok := true;
    }

    /** merry_os_execute_request_mem: a new page, and the address left in register Mb. */
    method RequestMem() returns (mb: nat)
      requires Valid() && |pages| < FIELD
      modifies this`pages, this`mem
      ensures Valid() && |pages| == old(|pages|) + 1
      ensures mem == old(mem) + Zeros(size)
      ensures mb == |old(mem)| + 1
    {
      AddNewPage();
      mb := (|pages| - 1) * size + 1;
      StartIsProduct(|pages| - 1, size);
    }

    /** The options part of merry_os_init: write them behind the program's data; if that fails, add
        one page and try once more. */
    method InstallOptions(dataLen: nat, length: nat, options: array<byte>) returns (ok: bool)
      requires Valid() && |pages| < FIELD
      requires length <= options.Length && options !in pages
      modifies this`error, this`mem, this`pages, pages
      ensures Valid()
      ensures var at := Effective(dataLen + 1, size); var f := old(mem); var g := f + Zeros(size);
              var part := old(options[..length]);
              if Fits(f, at, length) then ok && mem == Written(f, size, at, part)
              else (ok <==> Fits(g, at, length)) && mem == Written(g, size, at, part)
    {
      ghost var at := Effective(dataLen + 1, size);
      ghost var part := options[..length];
      ghost var before, n := mem, |pages|;
      ok := WriteBytes(dataLen + 1, length, options);
      if !ok {
        assert options[..length] == part;
        AddNewPage();
        ok := WriteBytes(dataLen + 1, length, options);
        assert options[..length] == part;
        RetryIsOneWrite(before, size, n, at, part);
      }
    }
  }

  /** Failing, adding one page and writing again leaves the same memory as adding the page first
      and writing once: the tail copied by the failed attempt is either covered by the second
      write or copied by it again. */
  lemma RetryIsOneWrite(f: seq<byte>, size: nat, n: nat, at: nat, part: seq<byte>)
    requires 0 < size && |f| == Start(n, size)
    requires !Fits(f, at, |part|)
    ensures Written(Written(f, size, at, part) + Zeros(size), size, at, part) ==
            Written(f + Zeros(size), size, at, part)
  {
    if at < |f| {
      StartDivides(at, size);
      WrittenFromPage(f, size, n, at / size, at % size, part);
      TailAgain(f, size, at, part);
    }
  }

  /** Bytes of a block that were copied before leave no trace in a write of that block. */
  lemma WrittenOver(g: seq<byte>, size: nat, at: nat, tail: seq<byte>, part: seq<byte>)
    requires 0 < size && at < |g| && |tail| == Tail(|g|, size, at) <= |part| && tail <= part
    ensures at + |tail| <= |g|
    ensures Written(Splice(g, at, tail), size, at, part) == Written(g, size, at, part)
  {
    if Fits(g, at, |part|) {
      SpliceCovered(g, at, tail, part);
    } else {
      assert part[..|tail|] == tail;
      SpliceCovered(g, at, tail, tail);
    }
  }

  lemma TailAgain(f: seq<byte>, size: nat, at: nat, part: seq<byte>)
    requires 0 < size && at + (size - at % size) <= |f| && size - at % size <= |part|
    ensures var tail := part[..size - at % size];
            Written(Splice(f, at, tail) + Zeros(size), size, at, part) == Written(f + Zeros(size), size, at, part)
  {
    var tail := part[..size - at % size];
    SpliceLeft(f, Zeros(size), at, tail);
    WrittenOver(f + Zeros(size), size, at, tail, part);
  }

  /** With both attempts counted, the options are installed if and only if they fit one page more
      than the program's data had. */
  lemma RetrySucceedsIff(f: seq<byte>, size: nat, at: nat, length: nat)
    ensures Fits(f, at, length) || Fits(f + Zeros(size), at, length) <==>
            at < |f| + size && at + length <= |f| + size
  {
  }

  /** A block write that succeeds is read back by a block read of the same range. */
  lemma BlockReadBack(f: seq<byte>, size: nat, at: nat, part: seq<byte>)
    requires 0 < size && Fits(f, at, |part|)
    ensures Fits(Written(f, size, at, part), at, |part|)
    ensures Written(f, size, at, part)[at..at + |part|] == part
  {
    SpliceReadBack(f, at, part, 0, |part|);
  }

  // Runs that mix memory requests with writes

  datatype Event = Mem | Write(at: nat, part: seq<byte>)

  /** The memory after a run, and the address granted by each memory request, in order. */
  function MemoryRun(f: seq<byte>, size: nat, events: seq<Event>): (seq<byte>, seq<nat>)
    requires 0 < size
    decreases |events|
  {
    if events == [] then (f, [])
    else
      var (g, grants) := MemoryRun(f, size, events[..|events| - 1]);
      match events[|events| - 1]
      case Mem => (g + Zeros(size), grants + [|g| + 1])
      case Write(at, part) => (Written(g, size, at, part), grants)
  }

  lemma {:induction false} GrantsInOrder(f: seq<byte>, size: nat, n: nat, events: seq<Event>)
    requires 0 < size && |f| == Start(n, size)
    ensures var (g, grants) := MemoryRun(f, size, events);
            && |g| == Start(n + |grants|, size)
            && forall k :: 0 <= k < |grants| ==> grants[k] == Start(n + k, size) + 1
    decreases |events|
  {
    if events != [] {
      var last := |events| - 1;
      GrantsInOrder(f, size, n, events[..last]);
      var (g, grants) := MemoryRun(f, size, events[..last]);
      if events[last].Mem? {
        OneMoreGrant(g, size, n, grants);
      }
    }
  }

  lemma OneMoreGrant(g: seq<byte>, size: nat, n: nat, grants: seq<nat>)
    requires |g| == Start(n + |grants|, size)
    requires forall k :: 0 <= k < |grants| ==> grants[k] == Start(n + k, size) + 1
    ensures var more := grants + [|g| + 1];
            && |g + Zeros(size)| == Start(n + |more|, size)
            && forall k :: 0 <= k < |more| ==> more[k] == Start(n + k, size) + 1
  {
  }

  /** A granted range of size - 1 bytes starts behind the first byte of a page and ends with that page:
      a page behind the memory the run started with and inside the final memory. */
  lemma GrantIsOwnPage(f: seq<byte>, size: nat, n: nat, events: seq<Event>, k: nat)
    requires 0 < size && |f| == Start(n, size)
    requires k < |MemoryRun(f, size, events).1|
    ensures var (g, grants) := MemoryRun(f, size, events);
            && |f| < grants[k]
            && (grants[k] - 1) % size == 0 && (grants[k] - 1) / size == n + k
            && grants[k] + (size - 1) <= |g|
  {
    GrantsInOrder(f, size, n, events);
    StartRemainder(n + k, 0, size);
    StartGrows(n, n + k, size);
    StartGrows(n + k + 1, n + |MemoryRun(f, size, events).1|, size);
  }

  /** Any two granted ranges are apart. */
  lemma GrantsAreSeparate(f: seq<byte>, size: nat, n: nat, events: seq<Event>, j: nat, k: nat)
    requires 0 < size && |f| == Start(n, size)
    requires j < k < |MemoryRun(f, size, events).1|
    ensures var (g, grants) := MemoryRun(f, size, events);
            grants[j] + (size - 1) < grants[k]
  {
    GrantsInOrder(f, size, n, events);
    StartGrows(n + j + 1, n + k, size);
  }

  predicate Touches(event: Event, a: nat) {
    event.Write? && event.at <= a < event.at + |event.part|
  }

  /** Growth keeps every existing byte: over a whole run a byte changes only if some write covers
      it, and a byte of a granted page that no write covers is zero. */
  lemma {:induction false} OnlyWritesChangeBytes(f: seq<byte>, size: nat, events: seq<Event>, a: nat)
    requires 0 < size && a < |MemoryRun(f, size, events).0|
    requires forall e :: 0 <= e < |events| ==> !Touches(events[e], a)
    ensures MemoryRun(f, size, events).0[a] == if a < |f| then f[a] else 0
    decreases |events|
  {
    if events != [] {
      var last := |events| - 1;
      var g := MemoryRun(f, size, events[..last]).0;
      assert !Touches(events[last], a);
      MemoryOnlyGrows(f, size, events[..last]);
      if a < |g| {
        OnlyWritesChangeBytes(f, size, events[..last], a);
      }
    }
  }

  lemma {:induction false} MemoryOnlyGrows(f: seq<byte>, size: nat, events: seq<Event>)
    requires 0 < size
    ensures |f| <= |MemoryRun(f, size, events).0|
    decreases |events|
  {
    if events != [] {
      MemoryOnlyGrows(f, size, events[..|events| - 1]);
    }
  }
}
