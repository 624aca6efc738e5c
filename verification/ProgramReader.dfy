/** merry/merry_nreader.c: the reader of program files, step by step over the open file. Its result is
    specified by module ProgramFile. */
module ProgramReader {
  import opened Wrappers
  import opened Arith
  import opened Bytes
  import opened Words
  import opened Paging
  import opened ProgramFile
  import InstructionMemory

  lemma {:induction false} TableOfSlice<T>(file: seq<byte>, at: nat, part: seq<byte>, width: nat, n: nat,
                                           decode: seq<byte> -> T)
    requires Start(n, width) <= |part| && at + |part| <= |file| && part == file[at..at + |part|]
    ensures Table(part, 0, width, n, decode) == Table(file, at, width, n, decode)
    decreases n
  {
    if n > 0 {
      TableOfSlice(file, at, part, width, n - 1, decode);
      SliceOfSlice(file, at, at + |part|, Start(n - 1, width), Start(n, width));
    }
  }

  /** What ReadSst has gathered from the entries read so far. */
  ghost predicate Gathered(ss: seq<Section>, totalLen: qword, dataLen: qword, symbols: bool) {
    && SizesAligned(ss) && totalLen == Wrap(SizeSum(ss)) && dataLen == Wrap(RimSum(ss))
    && (symbols <==> HasSymbols(ss))
  }

  lemma GatherNext(ss: seq<Section>, totalLen: qword, dataLen: qword, symbols: bool, s: Section)
    requires Gathered(ss, totalLen, dataLen, symbols) && s.size % 8 == 0
    ensures Gathered(ss + [s], Wrap(totalLen as int + s.size as int),
                     Wrap(dataLen as int + if s.rim then s.size as int else 0), symbols || s.kind.Symd?)
  {
    var tt := ss + [s];
    assert tt[..|ss|] == ss && tt[|ss|] == s;
    WrapAdds(SizeSum(ss), s.size);
    WrapAdds(RimSum(ss), if s.rim then s.size else 0);
    assert HasSymbols(ss) ==> exists i :: 0 <= i < |ss| && tt[i].kind.Symd?;
  }

  /** What follows from the outcome of the loop over the entries. */
  lemma SstOutcome(file: seq<byte>, h: Header, at: nat, ss: seq<Section>, totalLen: qword, dataLen: qword,
                   symbols: bool, read: bool)
    requires at == HEADER_LEN + h.eatLen + h.instLen && h.sstLen % SST_ENTRY == 0
    requires read <==> at + Start(h.sstLen / SST_ENTRY, SST_ENTRY) <= |file| &&
                       SizesAligned(Table(file, at, SST_ENTRY, h.sstLen / SST_ENTRY, SectionOf))
    requires read ==> ss == Table(file, at, SST_ENTRY, h.sstLen / SST_ENTRY, SectionOf)
    requires read ==> Gathered(ss, totalLen, dataLen, symbols)
    ensures read ==> Complete(file, h) && ss == Sections(file, h)
    ensures Complete(file, h) && SectionsAccepted(file, h) <==>
            read && Wrap(h.instLen + h.eatLen + h.sstLen + h.stLen + totalLen) <= |file|
  {
    WholeRecords(h.sstLen, SST_ENTRY);
    WrapAdds(SizeSum(ss), Total(h));
  }

  /** Dropping flags changes no table. */
  lemma ValidatedSame(file: seq<byte>, h: Header)
    ensures Complete(file, Validated(h)) <==> Complete(file, h)
    ensures Complete(file, h) ==> Entries(file, Validated(h)) == Entries(file, h)
    ensures Complete(file, h) ==> Sections(file, Validated(h)) == Sections(file, h)
    ensures TablesAccepted(file, Validated(h)) <==> TablesAccepted(file, h)
  {
  }

  lemma ReadIsParsed(file: seq<byte>, v: Header, eat: seq<qword>, sections: seq<Section>, dataLen: qword, symbols: bool)
    requires HeaderAccepted(file) && v == Validated(HeaderOf(file))
    ensures Accepted(file) <==> TablesAccepted(file, v)
    ensures TablesAccepted(file, v) && eat == Entries(file, v) && sections == Sections(file, v) &&
            dataLen == Wrap(RimSum(sections)) && symbols == HasSymbols(sections) ==>
            Program(v, eat, Parsed(file).words, sections, dataLen, symbols) == Parsed(file)
  {
    ValidatedSame(file, HeaderOf(file));
  }

  lemma NoSections(file: seq<byte>, h: Header)
    requires Complete(file, h) && h.sstLen == 0
    ensures Sections(file, h) == [] && RimSum([]) == 0 && !HasSymbols([])
  {
  }

  // Instructions in pages

  /** The j-th instruction from `at` on, lowest byte first. */
  function WordAt(file: seq<byte>, at: nat, j: nat): qword {
    if at + 8 * j + 8 <= |file| then LeWord(file[at + 8 * j..at + 8 * j + 8]) else 0
  }

  ghost predicate Holds(file: seq<byte>, at: nat, first: nat, ws: seq<qword>) {
    forall k :: 0 <= k < |ws| ==> ws[k] == WordAt(file, at, first + k)
  }

  ghost predicate Mapped(pages: seq<array<qword>>, size: nat) {
    && (forall i :: 0 <= i < |pages| ==> pages[i].Length == size)
    && (forall i, j :: 0 <= i < j < |pages| ==> pages[i] != pages[j])
  }

  /** The first `whole` pages are filled. */
  ghost predicate Filled(file: seq<byte>, at: nat, pages: seq<array<qword>>, size: nat, whole: nat)
    requires whole <= |pages|
    reads pages
  {
    forall i :: 0 <= i < whole ==> Holds(file, at, Start(i, size), pages[i][..])
  }

  /** The pages hold n words, and are no more than needed for that. */
  ghost predicate Loaded(file: seq<byte>, at: nat, pages: seq<array<qword>>, size: nat, n: nat)
    reads pages
  {
    && Mapped(pages, size) && n <= Start(|pages|, size)
    && (pages != [] ==> Start(|pages| - 1, size) < n)
    && (forall i, k :: 0 <= i < |pages| && 0 <= k < size && Start(i, size) + k < n ==>
          pages[i][k] == WordAt(file, at, Start(i, size) + k))
  }

  lemma FilledIsLoaded(file: seq<byte>, at: nat, pages: seq<array<qword>>, size: nat, whole: nat, extra: nat)
    requires extra < size && Mapped(pages, size) && |pages| == whole + (if extra > 0 then 1 else 0)
    requires Filled(file, at, pages, size, whole)
    requires extra > 0 ==> Holds(file, at, Start(whole, size), pages[whole][..extra])
    ensures Loaded(file, at, pages, size, Start(whole, size) + extra)
  {
    var n := Start(whole, size) + extra;
    forall i, k | 0 <= i < |pages| && 0 <= k < size && Start(i, size) + k < n
      ensures pages[i][k] == WordAt(file, at, Start(i, size) + k)
    {
      if i < whole {
        assert pages[i][..][k] == pages[i][k];
      } else {
        assert pages[whole][..extra][k] == pages[whole][k];
      }
    }
  }

  lemma WordAtIsInstruction(file: seq<byte>, h: Header, j: nat)
    requires Complete(file, h) && h.instLen % 8 == 0 && j < h.instLen / 8
    ensures |Instructions(file, h)| == h.instLen / 8
    ensures WordAt(file, HEADER_LEN + h.eatLen, j) == Instructions(file, h)[j]
  {
    var at, n := HEADER_LEN + h.eatLen, h.instLen / 8;
    InstructionsAt(file, h, at, n);
    TableElement(file, at, 8, n, LeWord, j);
    StartIsProduct(j, 8);
  }

  // The reader

  class MerryReader {
    const file: seq<byte>
    const pageSize: nat              // _MERRY_MEMORY_QS_PER_PAGE_
    var pos: nat
    var flen: nat
    var steFlag: bool
    var deFlag: bool
    var instLen: qword
    var eatLen: qword
    var sstLen: qword
    var stLen: qword
    var eat: seq<qword>
    var pages: seq<array<qword>>
    var sections: seq<Section>
    var dataLen: qword
    var symbols: bool

    function HeaderFields(): Header
      reads this
    {
      Header(steFlag, deFlag, instLen, eatLen, sstLen, stLen)
    }

    /** merry_init_reader, on a file that could be opened. */
    constructor (file: seq<byte>, pageSize: nat)
      requires |file| < TWO64 && 0 < pageSize <= FIELD
      ensures this.file == file && this.pageSize == pageSize && pos == 0 && !steFlag && !deFlag
      ensures sections == [] && dataLen == 0 && !symbols && pages == []
    {
      this.file := file;
      this.pageSize := pageSize;
      pos, steFlag, deFlag := 0, false, false;
      sections, dataLen, symbols, pages := [], 0, false, [];
    }

    /** fread of single bytes: as many as there are, up to n. */
    method Fread(n: nat) returns (bs: seq<byte>)
      requires pos <= |file|
      modifies this`pos
      ensures pos == if old(pos) + n <= |file| then old(pos) + n else |file|
      ensures bs == file[old(pos)..pos]
    {
      var end := if pos + n <= |file| then pos + n else |file|;
      bs := file[pos..end];
      pos := end;
    }

    method IsFileFitToRead() returns (ok: bool)
      modifies this`pos, this`flen
      ensures pos == 0 && flen == |file| && (ok <==> HEADER_LEN <= |file|)
    {
      pos := 0;
      flen := |file|;
      ok := !(flen < HEADER_LEN);
    }

    method ReadHeader() returns (ok: bool)
      requires pos == 0 && flen == |file| && HEADER_LEN <= |file| && !steFlag && !deFlag
      modifies this`pos, this`steFlag, this`deFlag, this`instLen, this`eatLen, this`sstLen, this`stLen
      ensures ok <==> !MagicRejected(file) && Wrap(Total(HeaderOf(file))) <= |file|
      ensures ok ==> pos == HEADER_LEN && HeaderFields() == HeaderOf(file)
    {
      var header := Fread(HEADER_LEN);
      if header[0] != 0x4D && header[1] != 0x49 && header[2] != 0x4E {
        return false;
      }
      if header[7] == 0x01 {
        steFlag := true;
      }
      if header[6] == 0x01 {
        deFlag := true;
      }
      assert header[8..16] == file[8..16] && header[16..24] == file[16..24];
      assert header[24..32] == file[24..32] && header[32..40] == file[32..40];
      instLen := BeWord(header[8..16]);
      eatLen := BeWord(header[16..24]);
      sstLen := BeWord(header[24..32]);
      stLen := BeWord(header[32..40]);
      ok := Wrap(instLen + eatLen + sstLen + stLen) <= flen;
    }

    method ValidateHeaderInfo() returns (ok: bool)
      modifies this`steFlag, this`deFlag, this`dataLen
      ensures ok <==> Aligned(HeaderFields())
      ensures ok ==> HeaderFields() == Validated(old(HeaderFields()))
      ensures dataLen == old(dataLen) || dataLen == 0
    {
      if instLen == 0 || instLen % 8 != 0 || sstLen % 16 != 0 || eatLen % 8 != 0 {
        return false;
      }
      if stLen == 0 && steFlag {
        steFlag := false;
      }
      if sstLen == 0 && deFlag {
        deFlag := false;
        dataLen := 0;
      }
      ok := true;
    }

    /** A short file leaves part of the buffer as it was; nothing is said about the entries then. */
    method ReadEat()
      requires pos == HEADER_LEN <= |file| && eatLen % 8 == 0
      modifies this`pos, this`eat
      ensures pos == if HEADER_LEN + eatLen <= |file| then HEADER_LEN + eatLen else |file|
      ensures Complete(file, HeaderFields()) ==> eat == Entries(file, HeaderFields())
    {
      var n := eatLen / EAT_ENTRY;
      WholeRecords(eatLen, EAT_ENTRY);
      if n == 0 {
        eat := [0];
        return;
      }
      var conts := new byte[eatLen];
      var got := Fread(eatLen);
      forall k | 0 <= k < |got| {
        conts[k] := got[k];
      }
      ghost var bytes, at := conts[..], pos;
      eat := [];
      var j := 0;
      for i := 0 to n
        invariant pos == at && conts[..] == bytes && j == Start(i, EAT_ENTRY)
        invariant j <= |bytes| && eat == Table(bytes, 0, EAT_ENTRY, i, BeWord)
      {
        StartGrows(i + 1, n, EAT_ENTRY);
        assert conts[j..j + 8] == Record(bytes, 0, EAT_ENTRY, i);
        eat := eat + [BeWord(conts[j..j + 8])];
        j := j + 8;
      }
      if HEADER_LEN + eatLen <= |file| {
        assert bytes == file[HEADER_LEN..HEADER_LEN + eatLen];
        TableOfSlice(file, HEADER_LEN, bytes, EAT_ENTRY, n, BeWord);
      }
    }

    /** Distinct pages, as many as asked for. */
    method GetMemFromOs(count: nat) returns (mapped: seq<array<qword>>)
      ensures |mapped| == count && fresh(mapped) && Mapped(mapped, pageSize)
    {
      mapped := [];
      for i := 0 to count
        invariant |mapped| == i && fresh(mapped) && Mapped(mapped, pageSize)
      {
        var page := new qword[pageSize];
        mapped := mapped + [page];
      }
    }

    /** fread of 8-byte words: as many complete ones as there are, up to n. */
    method FreadWords(page: array<qword>, n: nat, ghost at: nat, ghost first: nat) returns (count: nat)
      requires n <= page.Length && pos == at + 8 * first <= |file|
      modifies page, this`pos
      ensures pos <= |file| && count <= n
      ensures count == n <==> old(pos) + 8 * n <= |file|
      ensures count == n ==> pos == old(pos) + 8 * n && Holds(file, at, first, page[..n])
    {
      count := if pos + 8 * n <= |file| then n else (|file| - pos) / 8;
      forall k | 0 <= k < count {
        page[k] := LeWord(file[pos + 8 * k..pos + 8 * k + 8]);
      }
      pos := pos + 8 * count;
    }

    method ReadPages(whole: nat) returns (ok: bool)
      requires pos <= |file| && whole <= |pages| && Mapped(pages, pageSize)
      modifies this`pos, pages
      ensures pos <= |file|
      ensures ok <==> old(pos) + 8 * Start(whole, pageSize) <= |file|
      ensures ok ==> pos == old(pos) + 8 * Start(whole, pageSize)
      ensures ok ==> Filled(file, old(pos), pages, pageSize, whole)
    {
      ghost var at := pos;
      for i := 0 to whole
        invariant pos == at + 8 * Start(i, pageSize) <= |file|
        invariant Filled(file, at, pages, pageSize, i)
      {
        StartGrows(i + 1, whole, pageSize);
        var got := FreadWords(pages[i], pageSize, at, Start(i, pageSize));
        if got != pageSize {
          return false;
        }
        assert pages[i][..pageSize] == pages[i][..];
      }
      ok := true;
    }

    method ReadInstructions() returns (ok: bool)
      requires pos <= |file| && instLen % 8 == 0 && 0 < pageSize
      modifies this`pos, this`pages
      ensures ok <==> old(pos) + instLen <= |file|
      ensures fresh(pages)
      ensures ok ==> pos == old(pos) + instLen && Loaded(file, old(pos), pages, pageSize, instLen / 8)
    {
      var count := instLen / 8;
      var whole, extra := count / pageSize, count % pageSize;
      StartDivides(count, pageSize);
      pages := GetMemFromOs(whole + if extra > 0 then 1 else 0);
      ghost var at := pos;
      ok := ReadPages(whole);
      if !ok {
        return;
      }
      if extra > 0 {
        var got := FreadWords(pages[whole], extra, at, Start(whole, pageSize));
        if got != extra {
          return false;
        }
      }
      FilledIsLoaded(file, at, pages, pageSize, whole, extra);
    }

    /** One entry of the Sections Table. */
    method ReadSection(entry: seq<byte>, totalLen: qword) returns (ok: bool, total: qword)
      requires |entry| == SST_ENTRY && Gathered(sections, totalLen, dataLen, symbols)
      modifies this`sections, this`dataLen, this`symbols
      ensures ok <==> SectionOf(entry).size % 8 == 0
      ensures ok ==> sections == old(sections) + [SectionOf(entry)]
      ensures ok ==> Gathered(sections, total, dataLen, symbols)
    {
      var size := BeWord(entry[0..8]);
      if size % 8 != 0 {
        return false, 0;
      }
      GatherNext(sections, totalLen, dataLen, symbols, SectionOf(entry));
      var kind := KindOf(entry[8]);
      var rim, ras := entry[9] % 2 == 1, entry[10] % 2 == 1;
      total := Wrap(totalLen as int + size as int);
      if kind.Symd? {
        symbols := true;
      }
      rim := if kind.Info? || kind.Symd? then false else rim;
      sections := sections + [Section(size, kind, rim, ras, BeValue(entry[12..16]))];
      if rim {
        dataLen := Wrap(dataLen as int + size as int);
      }
      ok := true;
    }

    /** One turn of the loop in ReadSst. */
    method ReadEntry(ghost at: nat, ghost i: nat, totalLen: qword) returns (ok: bool, total: qword)
      requires pos == at + Start(i, SST_ENTRY) <= |file|
      requires sections == Table(file, at, SST_ENTRY, i, SectionOf)
      requires Gathered(sections, totalLen, dataLen, symbols)
      modifies this`pos, this`sections, this`dataLen, this`symbols
      ensures ok <==> at + Start(i + 1, SST_ENTRY) <= |file| &&
                      SectionOf(Record(file, at, SST_ENTRY, i)).size % 8 == 0
      ensures ok ==> pos == at + Start(i + 1, SST_ENTRY)
      ensures ok ==> sections == Table(file, at, SST_ENTRY, i + 1, SectionOf)
      ensures ok ==> Gathered(sections, total, dataLen, symbols)
    {
      var entry := Fread(SST_ENTRY);
      if |entry| != SST_ENTRY {
        return false, 0;
      }
      assert entry == Record(file, at, SST_ENTRY, i);
      ok, total := ReadSection(entry, totalLen);
    }

    /** The loop in ReadSst over n entries: they must all be there, with sizes that are multiples of 8. */
    method ReadEntries(n: nat) returns (ok: bool, totalLen: qword)
      requires pos <= |file| && sections == [] && dataLen == 0 && !symbols
      modifies this`pos, this`sections, this`dataLen, this`symbols
      ensures ok <==> old(pos) + Start(n, SST_ENTRY) <= |file| &&
                      SizesAligned(Table(file, old(pos), SST_ENTRY, n, SectionOf))
      ensures ok ==> sections == Table(file, old(pos), SST_ENTRY, n, SectionOf)
      ensures ok ==> Gathered(sections, totalLen, dataLen, symbols)
    {
      ghost var at := pos;
      ok, totalLen := true, 0;
      for i := 0 to n
        invariant pos == at + Start(i, SST_ENTRY) <= |file|
        invariant sections == Table(file, at, SST_ENTRY, i, SectionOf)
        invariant Gathered(sections, totalLen, dataLen, symbols)
      {
        StartGrows(i + 1, n, SST_ENTRY);
        ok, totalLen := ReadEntry(at, i, totalLen);
        if !ok {
          if at + Start(n, SST_ENTRY) <= |file| {
            TableElement(file, at, SST_ENTRY, n, SectionOf, i);
          }
          return false, 0;
        }
      }
      ok := true;
    }

    method ReadSst() returns (ok: bool)
      requires pos == HEADER_LEN + eatLen + instLen <= |file| == flen && sstLen % SST_ENTRY == 0
      requires sections == [] && dataLen == 0 && !symbols
      modifies this`pos, this`sections, this`dataLen, this`symbols
      ensures ok <==> Complete(file, HeaderFields()) && SectionsAccepted(file, HeaderFields())
      ensures ok ==> sections == Sections(file, HeaderFields())
      ensures ok ==> dataLen == Wrap(RimSum(sections)) && symbols == HasSymbols(sections)
    {
      ghost var at := pos;
      var totalLen;
      ok, totalLen := ReadEntries(sstLen / SST_ENTRY);
      SstOutcome(file, HeaderFields(), at, sections, totalLen, dataLen, symbols, ok);
      ok := ok && Wrap(instLen + eatLen + sstLen + stLen + totalLen) <= flen;
    }

    /** The Sections Table is read only if it is there. */
    method ReadSstIfPresent() returns (ok: bool)
      requires pos == HEADER_LEN + eatLen + instLen <= |file| == flen && sstLen % SST_ENTRY == 0
      requires sections == [] && dataLen == 0 && !symbols
      modifies this`pos, this`sections, this`dataLen, this`symbols
      ensures ok <==> TablesAccepted(file, HeaderFields())
      ensures ok ==> sections == Sections(file, HeaderFields())
      ensures ok ==> dataLen == Wrap(RimSum(sections)) && symbols == HasSymbols(sections)
    {
      if sstLen != 0 {
        ok := ReadSst();
      } else {
        NoSections(file, HeaderFields());
        ok := true;
      }
    }

    /** Instructions and Sections Table, behind as much of the EAT as there was. */
    method ReadBehindEat() returns (ok: bool)
      requires pos == (if HEADER_LEN + eatLen <= |file| then HEADER_LEN + eatLen else |file|)
      requires |file| == flen && 0 < pageSize && Aligned(HeaderFields())
      requires sections == [] && dataLen == 0 && !symbols
      modifies this`pos, this`pages, this`sections, this`dataLen, this`symbols
      ensures ok <==> TablesAccepted(file, HeaderFields())
      ensures ok ==> sections == Sections(file, HeaderFields())
      ensures ok ==> dataLen == Wrap(RimSum(sections)) && symbols == HasSymbols(sections)
      ensures ok ==> fresh(pages) && Loaded(file, HEADER_LEN + eatLen, pages, pageSize, instLen / 8)
    {
      ghost var v := HeaderFields();
      ok := ReadInstructions();
      assert HeaderFields() == v;
      if !ok {
        return;
      }
      ok := ReadSstIfPresent();
      assert HeaderFields() == v;
    }

    /** The tables behind the header. */
    method ReadTables() returns (ok: bool)
      requires pos == HEADER_LEN <= |file| == flen && 0 < pageSize && Aligned(HeaderFields())
      requires sections == [] && dataLen == 0 && !symbols
      modifies this`pos, this`eat, this`pages, this`sections, this`dataLen, this`symbols
      ensures ok <==> TablesAccepted(file, HeaderFields())
      ensures ok ==> eat == Entries(file, HeaderFields()) && sections == Sections(file, HeaderFields())
      ensures ok ==> dataLen == Wrap(RimSum(sections)) && symbols == HasSymbols(sections)
      ensures ok ==> fresh(pages) && Loaded(file, HEADER_LEN + eatLen, pages, pageSize, instLen / 8)
    {
      ghost var v := HeaderFields();
      ReadEat();
      ghost var entries := eat;
      ok := ReadBehindEat();
      assert HeaderFields() == v && eat == entries;
    }

    method ReadFront() returns (ok: bool)
      requires |file| < TWO64 && !steFlag && !deFlag && dataLen == 0
      modifies this`pos, this`flen, this`steFlag, this`deFlag, this`instLen, this`eatLen, this`sstLen, this`stLen,
               this`dataLen
      ensures ok <==> HeaderAccepted(file)
      ensures ok ==> pos == HEADER_LEN && flen == |file| && dataLen == 0
      ensures ok ==> HeaderFields() == Validated(HeaderOf(file))
    {
      ok := IsFileFitToRead();
      if ok {
        ok := ReadHeader();
        if ok {
          ok := ValidateHeaderInfo();
        }
      }
    }

    /** A freshly opened reader accepts the file exactly as specified, and its fields are then what the
        file parses to; the instructions are in the pages. */
    method ReadFile() returns (ok: bool)
      requires |file| < TWO64 && 0 < pageSize <= FIELD
      requires !steFlag && !deFlag && sections == [] && dataLen == 0 && !symbols
      modifies this
      ensures ok <==> Accepted(file)
      ensures ok ==> Program(HeaderFields(), eat, Parsed(file).words, sections, dataLen, symbols) == Parsed(file)
      ensures ok ==> fresh(pages) && Loaded(file, HEADER_LEN + eatLen, pages, pageSize, instLen / 8)
    {
      ok := ReadFront();
      if ok {
        ghost var v := HeaderFields();
        ok := ReadTables();
        ReadIsParsed(file, v, eat, sections, dataLen, symbols);
      }
    }
  }

  /** A fetch from pages that hold n words gives the word of that number. */
  lemma FetchLoaded(file: seq<byte>, at: nat, pages: seq<array<qword>>, size: nat, n: nat, words: seq<qword>, a: nat)
    requires 0 < size <= FIELD && Loaded(file, at, pages, size, n)
    requires |words| == Start(|pages|, size)
    requires forall i :: 0 <= i < |pages| ==> IsPage(words, size, i, pages[i][..])
    requires a < n && a < FIELD * size
    ensures InstructionMemory.Fetch(words, size, a) == Some(WordAt(file, at, a))
  {
    EffectiveIsIdentityBelowLimit(a, size);
    StartDivides(a, size);
    var i, k := a / size, a % size;
    PageBelow(i, k, size, |pages|);
    assert IsPage(words, size, i, pages[i][..]);
    assert pages[i][..][k] == words[Start(i, size)..Start(i, size) + size][k];
    assert pages[i][k] == WordAt(file, at, Start(i, size) + k);
  }

  /** From the file to the cores: reading a program and building the instruction memory from the
      reader's pages, every address a core can name fetches the instruction of that number. */
  method LoadProgram(file: seq<byte>, size: nat) returns (mem: InstructionMemory.InstMemory?)
    requires |file| < TWO64 && 0 < size <= FIELD
    ensures mem != null <==> Accepted(file)
    ensures mem != null ==> fresh(mem) && mem.Valid() && mem.size == size
    ensures mem != null ==>
              forall a :: 0 <= a < |Parsed(file).words| && a < FIELD * size ==>
                InstructionMemory.Fetch(mem.words, size, a) == Some(Parsed(file).words[a])
  {
    var r := new MerryReader(file, size);
    var ok := r.ReadFile();
    if !ok {
      return null;
    }
    mem := new InstructionMemory.InstMemory(size, r.pages);
    ghost var h, n := HeaderOf(file), r.instLen / 8;
    ghost var at := HEADER_LEN + h.eatLen;
    WordsCount(file);
    forall a | 0 <= a < |Parsed(file).words| && a < FIELD * size
      ensures InstructionMemory.Fetch(mem.words, size, a) == Some(Parsed(file).words[a])
    {
      FetchLoaded(file, at, r.pages, size, n, mem.words, a);
      WordAtIsInstruction(file, h, a);
    }
  }

  lemma WordsCount(file: seq<byte>)
    requires Accepted(file)
    ensures |Parsed(file).words| == HeaderOf(file).instLen / 8 && Parsed(file).words != []
  {
    var h := HeaderOf(file);
    InstructionsAt(file, h, HEADER_LEN + h.eatLen, h.instLen / 8);
  }
}
