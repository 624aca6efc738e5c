/** merry/merry_memory.c: the instruction memory, paged by words. An address is the number of an
    instruction, not of a byte. */
module InstructionMemory {
  import opened Wrappers
  import opened Arith
  import opened Paging
  import opened Words

  const MEM_INVALID_ACCESS: nat := 52

  /** The word an address denotes in a memory of whole pages, if its page exists. */
  function Fetch(words: seq<qword>, size: nat, address: nat): Option<qword>
    requires 0 < size <= FIELD
  {
    if Effective(address, size) < |words| then Some(words[Effective(address, size)]) else None
  }

  class InstMemory {
    const size: nat                  // _MERRY_MEMORY_QS_PER_PAGE_
    var pages: seq<array<qword>>
    var error: nat

    /** The instructions as one sequence. */
    ghost var words: seq<qword>

    ghost predicate Valid()
      reads this, pages
    {
      && 0 < size <= FIELD
      && |words| == Start(|pages|, size)
      && (forall i :: 0 <= i < |pages| ==> pages[i].Length == size)
      && (forall i, j :: 0 <= i < j < |pages| ==> pages[i] != pages[j])
      && (forall i :: 0 <= i < |pages| ==> IsPage(words, size, i, pages[i][..]))
    }

    /** init_provided: the page table is filled from the mapped pages one by one, and page i
        holds the instructions from i * size on. */
    constructor (size: nat, mapped: seq<array<qword>>)
      requires 0 < size <= FIELD
      requires forall i :: 0 <= i < |mapped| ==> mapped[i].Length == size
      requires forall i, j :: 0 <= i < j < |mapped| ==> mapped[i] != mapped[j]
      ensures Valid() && this.size == size && pages == mapped && error == 0
      ensures forall i :: 0 <= i < |mapped| ==> IsPage(words, size, i, mapped[i][..])
    {
      this.size := size;
      error := 0;
      pages := [];
      words := [];
      new;
      for i := 0 to |mapped|
        invariant pages == mapped[..i] && error == 0 && this.size == size
        invariant Valid()
      {
        pages := pages + [mapped[i]];
        words := words + mapped[i][..];
      }
    }

    method Read(address: nat) returns (r: Option<qword>)
      requires Valid()
      modifies this`error
      ensures Valid()
      ensures r == Fetch(words, size, address)
      ensures error == if r.Some? then old(error) else MEM_INVALID_ACCESS
    {
      var addr := Deduce(address, size);
      PageBelow(addr.page, addr.offset, size, |pages|);
      if addr.page >= |pages| {
        error := MEM_INVALID_ACCESS;
        return None;
      }
      assert IsPage(words, size, addr.page, pages[addr.page][..]);
      assert pages[addr.page][..][addr.offset]
          == words[Start(addr.page, size)..Start(addr.page, size) + size][addr.offset];
      r := Some(pages[addr.page][addr.offset]);
    }

    /** A word put into one page changes that page ... */
    lemma PageSpliced(page: nat, offset: nat, value: qword)
      requires Valid() && page < |pages| && offset < size
      ensures Start(page, size) + size <= |words|
      ensures IsPage(words[Start(page, size) + offset := value], size, page, pages[page][..][offset := value])
    {
      assert IsPage(words, size, page, pages[page][..]);
      PageUpdate(words, size, page, pages[page][..], offset, [value]);
      SpliceOne(pages[page][..], offset, value);
      SpliceOne(words, Start(page, size) + offset, value);
    }

    /** ... and no other. */
    lemma OtherPageKept(page: nat, offset: nat, value: qword, i: nat)
      requires Valid() && page < |pages| && offset < size && i < |pages| && i != page
      requires Start(page, size) + size <= |words|
      ensures IsPage(words[Start(page, size) + offset := value], size, i, pages[i][..])
    {
      assert IsPage(words, size, i, pages[i][..]);
      OtherPage(words, size, page, i, pages[i][..], offset, [value]);
      SpliceOne(words, Start(page, size) + offset, value);
    }

    method Write(address: nat, value: qword) returns (ok: bool)
      requires Valid()
      modifies this`error, this`words, pages
      ensures Valid()
      ensures ok <==> Effective(address, size) < |old(words)|
      ensures words == if ok then old(words)[Effective(address, size) := value] else old(words)
      ensures error == if ok then old(error) else MEM_INVALID_ACCESS
    {
      var addr := Deduce(address, size);
      PageBelow(addr.page, addr.offset, size, |pages|);
      if addr.page >= |pages| {
        error := MEM_INVALID_ACCESS;
        return false;
      }
      PageSpliced(addr.page, addr.offset, value);
      forall i | 0 <= i < |pages| && i != addr.page
        ensures IsPage(words[Effective(address, size) := value], size, i, pages[i][..])
      {
        OtherPageKept(addr.page, addr.offset, value, i);
      }
      pages[addr.page][addr.offset] := value;
      words := words[Effective(address, size) := value];
      ok := true;
    }

    /** get_address: the place of the word that a read of the same address would return. */
    method GetAddress(address: nat) returns (page: array?<qword>, offset: nat)
      requires Valid()
      modifies this`error
      ensures Valid()
      ensures page != null <==> Fetch(words, size, address).Some?
      ensures page != null ==> page in pages && offset < page.Length &&
                               Fetch(words, size, address) == Some(page[offset])
      ensures error == if page != null then old(error) else MEM_INVALID_ACCESS
    {
      var addr := Deduce(address, size);
      PageBelow(addr.page, addr.offset, size, |pages|);
      if addr.page >= |pages| {
        error := MEM_INVALID_ACCESS;
        return null, 0;
      }
      page, offset := pages[addr.page], addr.offset;
      assert IsPage(words, size, addr.page, page[..]);
      assert page[..][offset] == words[Start(addr.page, size)..Start(addr.page, size) + size][offset];
    }
  }
}
