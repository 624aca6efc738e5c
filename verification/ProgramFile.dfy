/** The program-file format as merry/merry_nreader.c reads it: the header, the Entry Address Table, the
    instructions and the Sections Table, as functions on the bytes of the file. */
module ProgramFile {
  import opened Bytes
  import opened Words
  import opened Paging

  const HEADER_LEN: nat := 40
  const EAT_ENTRY: nat := 8
  const INSTRUCTION: nat := 8
  const SST_ENTRY: nat := 16

  /** `n` records of `width` bytes each, decoded one by one. */
  function Table<T>(file: seq<byte>, at: nat, width: nat, n: nat, decode: seq<byte> -> T): (ts: seq<T>)
    requires at + Start(n, width) <= |file|
    ensures |ts| == n
  {
    if n == 0 then []
    else Table(file, at, width, n - 1, decode) + [decode(Record(file, at, width, n - 1))]
  }

  function Record(file: seq<byte>, at: nat, width: nat, i: nat): (r: seq<byte>)
    requires at + Start(i + 1, width) <= |file|
    ensures |r| == width
  {
    file[at + Start(i, width)..at + Start(i + 1, width)]
  }

  lemma {:induction false} TableElement<T>(file: seq<byte>, at: nat, width: nat, n: nat, decode: seq<byte> -> T, i: nat)
    requires i < n && at + Start(n, width) <= |file|
    ensures at + Start(i + 1, width) <= |file|
    ensures Table(file, at, width, n, decode)[i] == decode(Record(file, at, width, i))
    decreases n
  {
    StartGrows(i + 1, n, width);
    if i < n - 1 {
      TableElement(file, at, width, n - 1, decode, i);
    }
  }

  /** The word in 8 bytes, highest byte first; the tables decode nothing else. */
  function BeWord(bs: seq<byte>): qword {
    if |bs| == 8 then EightBytes(); BeBytesOfValue(bs); BeValue(bs) else 0
  }

  /** The word in 8 bytes as the host stores it, lowest byte first. */
  function LeWord(bs: seq<byte>): qword {
    if |bs| == 8 then EightBytes(); LeBytesOfValue(bs); LeValue(bs) else 0
  }

  // Header

  datatype Header = Header(ste: bool, de: bool, instLen: qword, eatLen: qword, sstLen: qword, stLen: qword)

  /** The test rejects only when all three letters are wrong. */
  predicate MagicRejected(file: seq<byte>)
    requires HEADER_LEN <= |file|
  {
    file[0] != 0x4D && file[1] != 0x49 && file[2] != 0x4E
  }

  function HeaderOf(file: seq<byte>): Header
    requires HEADER_LEN <= |file|
  {
    Header(file[7] == 1, file[6] == 1, BeWord(file[8..16]), BeWord(file[16..24]),
           BeWord(file[24..32]), BeWord(file[32..40]))
  }

  /** The sum of the four lengths, which does not count the header itself. */
  function Total(h: Header): nat {
    h.instLen + h.eatLen + h.sstLen + h.stLen
  }

  predicate Aligned(h: Header) {
    h.instLen != 0 && h.instLen % 8 == 0 && h.sstLen % 16 == 0 && h.eatLen % 8 == 0
  }

  /** A flag without the table that it announces is dropped. */
  function Validated(h: Header): Header {
    h.(ste := h.ste && h.stLen != 0, de := h.de && h.sstLen != 0)
  }

  // Sections Table

  datatype Kind = Data | Info | Symd | OtherKind

  datatype Section = Section(size: qword, kind: Kind, rim: bool, ras: bool, stIndex: nat)

  function KindOf(code: nat): Kind {
    match code % 4
    case 0 => Data
    case 1 => Info
    case 2 => Symd
    case _ => OtherKind
  }

  /** RIM is cleared for the information and the symbol section. */
  function Normal(s: Section): Section {
    s.(rim := s.rim && !s.kind.Info? && !s.kind.Symd?)
  }

  function SectionOf(entry: seq<byte>): Section {
    if |entry| != SST_ENTRY then Section(0, Data, false, false, 0)
    else Normal(Section(BeWord(entry[0..8]), KindOf(entry[8]), entry[9] % 2 == 1, entry[10] % 2 == 1,
                        BeValue(entry[12..16])))
  }

  function SizeSum(ss: seq<Section>): nat {
    if ss == [] then 0 else SizeSum(ss[..|ss| - 1]) + ss[|ss| - 1].size
  }

  /** What goes into memory: the sections marked RIM. */
  function RimSum(ss: seq<Section>): nat {
    if ss == [] then 0
    else RimSum(ss[..|ss| - 1]) + if ss[|ss| - 1].rim then ss[|ss| - 1].size else 0
  }

  predicate SizesAligned(ss: seq<Section>) {
    forall i :: 0 <= i < |ss| ==> ss[i].size % 8 == 0
  }

  predicate HasSymbols(ss: seq<Section>) {
    exists i :: 0 <= i < |ss| && ss[i].kind.Symd?
  }

  // The file as a whole

  datatype Program = Program(header: Header, eat: seq<qword>, words: seq<qword>, sections: seq<Section>,
                             dataLen: qword, symbols: bool)

  /** Everything up to the end of the Sections Table is there. */
  predicate Complete(file: seq<byte>, h: Header) {
    HEADER_LEN + h.eatLen + h.instLen + h.sstLen <= |file|
  }

  /** An empty Entry Address Table stands for one core that starts at 0. */
  function Entries(file: seq<byte>, h: Header): seq<qword>
    requires Complete(file, h)
  {
    WholeRecords(h.eatLen, EAT_ENTRY);
    if h.eatLen / EAT_ENTRY == 0 then [0]
    else Table(file, HEADER_LEN, EAT_ENTRY, h.eatLen / EAT_ENTRY, BeWord)
  }

  function Instructions(file: seq<byte>, h: Header): seq<qword>
    requires Complete(file, h)
  {
    WholeRecords(h.instLen, INSTRUCTION);
    Table(file, HEADER_LEN + h.eatLen, INSTRUCTION, h.instLen / INSTRUCTION, LeWord)
  }

  function Sections(file: seq<byte>, h: Header): seq<Section>
    requires Complete(file, h)
  {
    WholeRecords(h.sstLen, SST_ENTRY);
    Table(file, HEADER_LEN + h.eatLen + h.instLen, SST_ENTRY, h.sstLen / SST_ENTRY, SectionOf)
  }

  predicate HeaderAccepted(file: seq<byte>) {
    && HEADER_LEN <= |file| && !MagicRejected(file)
    && Wrap(Total(HeaderOf(file))) <= |file| && Aligned(HeaderOf(file))
  }

  /** What the Sections Table must satisfy. */
  predicate SectionsAccepted(file: seq<byte>, h: Header)
    requires Complete(file, h)
  {
    SizesAligned(Sections(file, h)) && Wrap(Total(h) + SizeSum(Sections(file, h))) <= |file|
  }

  predicate TablesAccepted(file: seq<byte>, h: Header) {
    Complete(file, h) && (h.sstLen != 0 ==> SectionsAccepted(file, h))
  }

  /** The reader accepts the file. Both totals are compared after wrapping at 2^64. */
  predicate Accepted(file: seq<byte>) {
    HeaderAccepted(file) && TablesAccepted(file, HeaderOf(file))
  }

  function Parsed(file: seq<byte>): Program
    requires Accepted(file)
  {
    var h := HeaderOf(file);
    Program(Validated(h), Entries(file, h), Instructions(file, h), Sections(file, h),
            Wrap(RimSum(Sections(file, h))), HasSymbols(Sections(file, h)))
  }

  lemma WholeRecords(len: nat, width: nat)
    requires width > 0
    ensures Start(len / width, width) <= len
    ensures len % width == 0 ==> Start(len / width, width) == len
  {
    StartDivides(len, width);
  }

  // Printing

  function Flatten<T>(ts: seq<T>, encode: T -> seq<byte>): seq<byte> {
    if ts == [] then [] else Flatten(ts[..|ts| - 1], encode) + encode(ts[|ts| - 1])
  }

  function BeQword(w: qword): seq<byte> {
    BeBytes(w, 8)
  }

  function LeQword(w: qword): seq<byte> {
    LeBytes(w, 8)
  }

  function Flag(on: bool): byte {
    if on then 1 else 0
  }

  function PrintHeader(h: Header): (bs: seq<byte>)
    ensures |bs| == HEADER_LEN
  {
    [0x4D, 0x49, 0x4E, 0, 0, 0, Flag(h.de), Flag(h.ste)]
    + BeQword(h.instLen) + BeQword(h.eatLen) + BeQword(h.sstLen) + BeQword(h.stLen)
  }

  function Code(k: Kind): byte {
    match k
    case Data => 0
    case Info => 1
    case Symd => 2
    case OtherKind => 3
  }

  function PrintSection(s: Section): seq<byte> {
    BeQword(s.size) + [Code(s.kind), Flag(s.rim), Flag(s.ras), 0] + BeBytes(s.stIndex, 4)
  }

  /** What a program file is made from; `rest` holds the section contents and the string table. */
  datatype Image = Image(ste: bool, de: bool, eat: seq<qword>, words: seq<qword>, sections: seq<Section>,
                         stLen: qword, rest: seq<byte>)

  /** Every length fits its field of the header. */
  predicate Fits(im: Image) {
    && 8 * |im.eat| < TWO64 && 8 * |im.words| < TWO64 && 16 * |im.sections| < TWO64
    && (forall i :: 0 <= i < |im.sections| ==> im.sections[i].stIndex < 0x1_0000_0000)
  }

  function ImageHeader(im: Image): Header
    requires Fits(im)
  {
    Header(im.ste, im.de, 8 * |im.words|, 8 * |im.eat|, 16 * |im.sections|, im.stLen)
  }

  function Print(im: Image): seq<byte>
    requires Fits(im)
  {
    PrintHeader(ImageHeader(im)) + Flatten(im.eat, BeQword) + Flatten(im.words, LeQword)
    + Flatten(im.sections, PrintSection) + im.rest
  }

  // Parsing what was printed

  ghost predicate Inverts<T>(encode: T -> seq<byte>, decode: seq<byte> -> T, width: nat, t: T, read: T) {
    |encode(t)| == width && decode(encode(t)) == read
  }

  lemma {:induction false} FlattenLength<T>(ts: seq<T>, encode: T -> seq<byte>, width: nat)
    requires forall i :: 0 <= i < |ts| ==> |encode(ts[i])| == width
    ensures |Flatten(ts, encode)| == Start(|ts|, width)
  {
    if ts != [] {
      FlattenLength(ts[..|ts| - 1], encode, width);
    }
  }

  /** A table reads back, record by record, what was printed, wherever it stands in the file. */
  lemma {:induction false} TableOfFlatten<T>(pre: seq<byte>, ts: seq<T>, back: seq<T>, post: seq<byte>,
                                             width: nat, encode: T -> seq<byte>, decode: seq<byte> -> T)
    requires |back| == |ts|
    requires forall i :: 0 <= i < |ts| ==> Inverts(encode, decode, width, ts[i], back[i])
    ensures |Flatten(ts, encode)| == Start(|ts|, width)
    ensures Table(pre + Flatten(ts, encode) + post, |pre|, width, |ts|, decode) == back
    decreases |ts|
  {
    FlattenLength(ts, encode, width);
    if ts != [] {
      var n := |ts| - 1;
      var last := encode(ts[n]);
      assert Inverts(encode, decode, width, ts[n], back[n]);
      TableOfFlatten(pre, ts[..n], back[..n], last + post, width, encode, decode);
      var file := pre + Flatten(ts, encode) + post;
      assert file == pre + Flatten(ts[..n], encode) + (last + post);
      assert Record(file, |pre|, width, n) == last;
      assert back == back[..n] + [back[n]];
    }
  }

  lemma BeInverts(w: qword)
    ensures Inverts(BeQword, BeWord, 8, w, w)
  {
    EightBytes();
    BeValueOfBytes(w, 8);
  }

  lemma LeInverts(w: qword)
    ensures Inverts(LeQword, LeWord, 8, w, w)
  {
    EightBytes();
    LeValueOfSmall(w, 8);
  }

  lemma SectionInverts(s: Section)
    requires s.stIndex < 0x1_0000_0000
    ensures Inverts(PrintSection, SectionOf, SST_ENTRY, s, Normal(s))
  {
    EightBytes();
    BeInverts(s.size);
    BeValueOfBytes(s.stIndex, 4);
    var bs := PrintSection(s);
    assert bs[0..8] == BeQword(s.size);
    assert bs[12..16] == BeBytes(s.stIndex, 4);
    assert bs[8] == Code(s.kind) && bs[9] == Flag(s.rim) && bs[10] == Flag(s.ras);
  }

  lemma HeaderReadBack(h: Header, rest: seq<byte>)
    ensures HeaderOf(PrintHeader(h) + rest) == h
    ensures !MagicRejected(PrintHeader(h) + rest)
  {
    var file := PrintHeader(h) + rest;
    BeInverts(h.instLen);
    BeInverts(h.eatLen);
    BeInverts(h.sstLen);
    BeInverts(h.stLen);
    assert file[8..16] == BeQword(h.instLen);
    assert file[16..24] == BeQword(h.eatLen);
    assert file[24..32] == BeQword(h.sstLen);
    assert file[32..40] == BeQword(h.stLen);
  }

  function NormalAll(ss: seq<Section>): (r: seq<Section>)
    ensures |r| == |ss|
  {
    seq(|ss|, i requires 0 <= i < |ss| => Normal(ss[i]))
  }

  lemma {:induction false} NormalKeepsSizes(ss: seq<Section>)
    ensures SizeSum(NormalAll(ss)) == SizeSum(ss)
    ensures SizesAligned(NormalAll(ss)) <==> SizesAligned(ss)
    ensures RimSum(NormalAll(ss)) <= SizeSum(ss)
  {
    if ss != [] {
      var n := |ss| - 1;
      NormalKeepsSizes(ss[..n]);
      assert NormalAll(ss)[..n] == NormalAll(ss[..n]);
    }
    forall i | 0 <= i < |ss|
      ensures NormalAll(ss)[i].size == ss[i].size
    {
    }
  }

  lemma LengthsOfPrint(im: Image)
    requires Fits(im)
    ensures |Flatten(im.eat, BeQword)| == 8 * |im.eat|
    ensures |Flatten(im.words, LeQword)| == 8 * |im.words|
    ensures |Flatten(im.sections, PrintSection)| == 16 * |im.sections|
    ensures |Print(im)| == HEADER_LEN + 8 * |im.eat| + 8 * |im.words| + 16 * |im.sections| + |im.rest|
    ensures HeaderOf(Print(im)) == ImageHeader(im) && !MagicRejected(Print(im))
    ensures Complete(Print(im), ImageHeader(im))
  {
    FlattenLength(im.eat, BeQword, 8);
    FlattenLength(im.words, LeQword, 8);
    FlattenLength(im.sections, PrintSection, 16);
    StartIsProduct(|im.eat|, 8);
    StartIsProduct(|im.words|, 8);
    StartIsProduct(|im.sections|, 16);
    HeaderOfPrint(im);
  }

  lemma HeaderOfPrint(im: Image)
    requires Fits(im)
    ensures HEADER_LEN <= |Print(im)|
    ensures HeaderOf(Print(im)) == ImageHeader(im) && !MagicRejected(Print(im))
  {
    var rest := Flatten(im.eat, BeQword) + Flatten(im.words, LeQword) + Flatten(im.sections, PrintSection) + im.rest;
    assert Print(im) == PrintHeader(ImageHeader(im)) + rest;
    HeaderReadBack(ImageHeader(im), rest);
  }

  lemma Group<T>(a: seq<T>, b: seq<T>, c: seq<T>, d: seq<T>, e: seq<T>)
    ensures a + b + c + d + e == a + b + (c + d + e)
    ensures a + b + c + d + e == (a + b) + c + (d + e)
    ensures a + b + c + d + e == (a + b + c) + d + e
  {
  }

  lemma BeTable(pre: seq<byte>, ws: seq<qword>, post: seq<byte>)
    ensures |Flatten(ws, BeQword)| == Start(|ws|, 8)
    ensures Table(pre + Flatten(ws, BeQword) + post, |pre|, 8, |ws|, BeWord) == ws
  {
    forall w | w in ws ensures Inverts(BeQword, BeWord, 8, w, w) { BeInverts(w); }
    TableOfFlatten(pre, ws, ws, post, 8, BeQword, BeWord);
  }

  lemma LeTable(pre: seq<byte>, ws: seq<qword>, post: seq<byte>)
    ensures |Flatten(ws, LeQword)| == Start(|ws|, 8)
    ensures Table(pre + Flatten(ws, LeQword) + post, |pre|, 8, |ws|, LeWord) == ws
  {
    forall w | w in ws ensures Inverts(LeQword, LeWord, 8, w, w) { LeInverts(w); }
    TableOfFlatten(pre, ws, ws, post, 8, LeQword, LeWord);
  }

  lemma SectionTable(pre: seq<byte>, ss: seq<Section>, post: seq<byte>)
    requires forall i :: 0 <= i < |ss| ==> ss[i].stIndex < 0x1_0000_0000
    ensures |Flatten(ss, PrintSection)| == Start(|ss|, 16)
    ensures Table(pre + Flatten(ss, PrintSection) + post, |pre|, 16, |ss|, SectionOf) == NormalAll(ss)
  {
    forall i | 0 <= i < |ss|
      ensures Inverts(PrintSection, SectionOf, 16, ss[i], NormalAll(ss)[i])
    {
      SectionInverts(ss[i]);
    }
    TableOfFlatten(pre, ss, NormalAll(ss), post, 16, PrintSection, SectionOf);
  }

  /** The tables with their counts and places instead of their lengths. */
  lemma EntriesAt(file: seq<byte>, h: Header, n: nat)
    requires Complete(file, h) && h.eatLen == 8 * n
    ensures Start(n, 8) == 8 * n
    ensures Entries(file, h) == if n == 0 then [0] else Table(file, HEADER_LEN, 8, n, BeWord)
  {
    StartIsProduct(n, 8);
  }

  lemma InstructionsAt(file: seq<byte>, h: Header, at: nat, n: nat)
    requires Complete(file, h) && h.instLen == 8 * n && at == HEADER_LEN + h.eatLen
    ensures Start(n, 8) == 8 * n
    ensures Instructions(file, h) == Table(file, at, 8, n, LeWord)
  {
    StartIsProduct(n, 8);
  }

  lemma SectionsAt(file: seq<byte>, h: Header, at: nat, n: nat)
    requires Complete(file, h) && h.sstLen == 16 * n && at == HEADER_LEN + h.eatLen + h.instLen
    ensures Start(n, 16) == 16 * n
    ensures Sections(file, h) == Table(file, at, 16, n, SectionOf)
  {
    StartIsProduct(n, 16);
  }

  lemma EntriesFrom(file: seq<byte>, h: Header, pre: seq<byte>, eat: seq<qword>, post: seq<byte>)
    requires Complete(file, h) && h.eatLen == 8 * |eat|
    requires |pre| == HEADER_LEN && file == pre + Flatten(eat, BeQword) + post
    ensures Entries(file, h) == if eat == [] then [0] else eat
  {
    EntriesAt(file, h, |eat|);
    BeTable(pre, eat, post);
  }

  lemma InstructionsFrom(file: seq<byte>, h: Header, pre: seq<byte>, words: seq<qword>, post: seq<byte>)
    requires Complete(file, h) && h.instLen == 8 * |words|
    requires |pre| == HEADER_LEN + h.eatLen && file == pre + Flatten(words, LeQword) + post
    ensures Instructions(file, h) == words
  {
    InstructionsAt(file, h, |pre|, |words|);
    LeTable(pre, words, post);
  }

  lemma SectionsFrom(file: seq<byte>, h: Header, pre: seq<byte>, ss: seq<Section>, post: seq<byte>)
    requires Complete(file, h) && h.sstLen == 16 * |ss|
    requires |pre| == HEADER_LEN + h.eatLen + h.instLen && file == pre + Flatten(ss, PrintSection) + post
    requires forall i :: 0 <= i < |ss| ==> ss[i].stIndex < 0x1_0000_0000
    ensures Sections(file, h) == NormalAll(ss)
  {
    SectionsAt(file, h, |pre|, |ss|);
    SectionTable(pre, ss, post);
  }

  /** Each table comes back, whatever the totals say. */
  lemma TablesReadBack(im: Image)
    requires Fits(im)
    ensures Complete(Print(im), ImageHeader(im))
    ensures Entries(Print(im), ImageHeader(im)) == if im.eat == [] then [0] else im.eat
    ensures Instructions(Print(im), ImageHeader(im)) == im.words
    ensures Sections(Print(im), ImageHeader(im)) == NormalAll(im.sections)
  {
    LengthsOfPrint(im);
    var file, h := Print(im), ImageHeader(im);
    var pre, e, w, s := PrintHeader(h), Flatten(im.eat, BeQword), Flatten(im.words, LeQword),
                        Flatten(im.sections, PrintSection);
    Group(pre, e, w, s, im.rest);
    EntriesFrom(file, h, pre, im.eat, w + s + im.rest);
    InstructionsFrom(file, h, pre + e, im.words, s + im.rest);
    SectionsFrom(file, h, pre + e + w, im.sections, im.rest);
  }

  /** There is an instruction, section sizes are multiples of 8, and both totals, wrapped at 2^64, are at
      most the length of the file. */
  predicate Passes(im: Image, len: nat)
    requires Fits(im)
  {
    && im.words != [] && Wrap(Total(ImageHeader(im))) <= len
    && (im.sections != [] ==>
          SizesAligned(im.sections) && Wrap(Total(ImageHeader(im)) + SizeSum(im.sections)) <= len)
  }

  lemma ImageAligned(im: Image)
    requires Fits(im)
    ensures Aligned(ImageHeader(im)) <==> im.words != []
  {
  }

  lemma AcceptedWhen(file: seq<byte>, im: Image)
    requires Fits(im)
    requires HEADER_LEN <= |file| && HeaderOf(file) == ImageHeader(im) && !MagicRejected(file)
    requires Complete(file, ImageHeader(im)) && Sections(file, ImageHeader(im)) == NormalAll(im.sections)
    ensures Accepted(file) <==> Passes(im, |file|)
  {
    NormalKeepsSizes(im.sections);
    ImageAligned(im);
    var h := ImageHeader(im);
    assert SectionsAccepted(file, h) <==>
      SizesAligned(im.sections) && Wrap(Total(h) + SizeSum(im.sections)) <= |file|;
    assert h.sstLen != 0 <==> im.sections != [];
  }

  lemma PrintedAcceptedIff(im: Image)
    requires Fits(im)
    ensures Accepted(Print(im)) <==> Passes(im, |Print(im)|)
  {
    LengthsOfPrint(im);
    TablesReadBack(im);
    AcceptedWhen(Print(im), im);
  }

  lemma PassesBelowWrap(im: Image, len: nat)
    requires Fits(im) && Total(ImageHeader(im)) + SizeSum(im.sections) < TWO64
    ensures Passes(im, len) <==>
            im.words != [] && SizesAligned(im.sections) && Total(ImageHeader(im)) + SizeSum(im.sections) <= len
  {
    var total, sum := Total(ImageHeader(im)), SizeSum(im.sections);
    WrapSmall(total);
    WrapSmall(total + sum);
  }

  /** When the totals stay below 2^64, this means that sections and string table are present but for at
      most 40 bytes: both totals leave the header out, so that much may be missing. */
  lemma PresentBelowWrap(im: Image)
    requires Fits(im) && Total(ImageHeader(im)) + SizeSum(im.sections) < TWO64
    ensures Accepted(Print(im)) <==>
            im.words != [] && SizesAligned(im.sections) &&
            im.stLen + SizeSum(im.sections) <= |im.rest| + HEADER_LEN
  {
    LengthsOfPrint(im);
    PrintedAcceptedIff(im);
    PassesBelowWrap(im, |Print(im)|);
  }

  /** Above, it does not: a string table said to be almost 2^64 bytes long and not there at all passes. */
  lemma WrappedTotalPasses(words: seq<qword>)
    requires words != [] && 8 * |words| < TWO64
    ensures var im := Image(true, false, [], words, [], TWO64 - 8 * |words|, []);
            Fits(im) && Accepted(Print(im)) && Validated(HeaderOf(Print(im))).ste
  {
    var im := Image(true, false, [], words, [], TWO64 - 8 * |words|, []);
    assert Total(ImageHeader(im)) == TWO64;
    LengthsOfPrint(im);
    PrintedAcceptedIff(im);
  }

  lemma ParsedFrom(file: seq<byte>, h: Header, eat: seq<qword>, words: seq<qword>, ss: seq<Section>)
    requires Accepted(file) && HeaderOf(file) == h
    requires Entries(file, h) == eat && Instructions(file, h) == words && Sections(file, h) == ss
    requires RimSum(ss) < TWO64
    ensures Parsed(file) == Program(Validated(h), eat, words, ss, RimSum(ss), HasSymbols(ss))
  {
    WrapSmall(RimSum(ss));
  }

  lemma NormalKeepsKinds(ss: seq<Section>)
    ensures HasSymbols(NormalAll(ss)) <==> HasSymbols(ss)
  {
    forall i | 0 <= i < |ss|
      ensures NormalAll(ss)[i].kind == ss[i].kind
    {
    }
  }

  /** Printing and parsing gives back the sizes, flags, entries, instructions and sections; the data
      length is the sum of the sections marked RIM. */
  lemma PrintParse(im: Image)
    requires Fits(im) && Total(ImageHeader(im)) + SizeSum(im.sections) < TWO64 && Accepted(Print(im))
    ensures var p := Parsed(Print(im));
            && p.header == Validated(ImageHeader(im)) && p.words == im.words
            && p.eat == (if im.eat == [] then [0] else im.eat)
            && p.sections == NormalAll(im.sections)
            && p.dataLen == RimSum(NormalAll(im.sections)) && (p.symbols <==> HasSymbols(im.sections))
  {
    LengthsOfPrint(im);
    TablesReadBack(im);
    NormalKeepsSizes(im.sections);
    NormalKeepsKinds(im.sections);
    ParsedFrom(Print(im), ImageHeader(im), if im.eat == [] then [0] else im.eat, im.words, NormalAll(im.sections));
  }

  // Any accepted file

  /** Reading a table loses nothing when every record can be printed back. */
  lemma {:induction false} FlattenOfTable<T>(file: seq<byte>, at: nat, width: nat, n: nat,
                                             decode: seq<byte> -> T, encode: T -> seq<byte>)
    requires at + Start(n, width) <= |file|
    requires forall bs: seq<byte> :: |bs| == width ==> encode(decode(bs)) == bs
    ensures Flatten(Table(file, at, width, n, decode), encode) == file[at..at + Start(n, width)]
    decreases n
  {
    if n > 0 {
      FlattenOfTable(file, at, width, n - 1, decode, encode);
      var ts := Table(file, at, width, n, decode);
      assert ts[..n - 1] == Table(file, at, width, n - 1, decode);
    }
  }

  /** Instructions and entries are the bytes of their sections, nothing added or lost. */
  lemma TablesAreBytes(file: seq<byte>, h: Header)
    requires Complete(file, h) && Aligned(h)
    ensures Flatten(Instructions(file, h), LeQword) == file[HEADER_LEN + h.eatLen..HEADER_LEN + h.eatLen + h.instLen]
    ensures h.eatLen != 0 ==> Flatten(Entries(file, h), BeQword) == file[HEADER_LEN..HEADER_LEN + h.eatLen]
  {
    var at := HEADER_LEN + h.eatLen;
    InstructionsAt(file, h, at, h.instLen / 8);
    LeTableIsBytes(file, at, h.instLen / 8);
    EntriesAt(file, h, h.eatLen / 8);
    BeTableIsBytes(file, HEADER_LEN, h.eatLen / 8);
  }

  lemma LeTableIsBytes(file: seq<byte>, at: nat, n: nat)
    requires at + Start(n, 8) <= |file|
    ensures Flatten(Table(file, at, 8, n, LeWord), LeQword) == file[at..at + Start(n, 8)]
  {
    forall bs: seq<byte> | |bs| == 8 ensures LeQword(LeWord(bs)) == bs {
      WordsAreBytes(bs);
    }
    FlattenOfTable(file, at, 8, n, LeWord, LeQword);
  }

  lemma BeTableIsBytes(file: seq<byte>, at: nat, n: nat)
    requires at + Start(n, 8) <= |file|
    ensures Flatten(Table(file, at, 8, n, BeWord), BeQword) == file[at..at + Start(n, 8)]
  {
    forall bs: seq<byte> | |bs| == 8 ensures BeQword(BeWord(bs)) == bs {
      WordsAreBytes(bs);
    }
    FlattenOfTable(file, at, 8, n, BeWord, BeQword);
  }

  lemma WordsAreBytes(bs: seq<byte>)
    requires |bs| == 8
    ensures LeQword(LeWord(bs)) == bs && BeQword(BeWord(bs)) == bs
  {
    EightBytes();
    LeBytesOfValue(bs);
    BeBytesOfValue(bs);
  }

  /** What is read of an accepted file is whole records: nothing is cut off, and there is an instruction. */
  lemma AcceptedIsWhole(file: seq<byte>)
    requires Accepted(file)
    ensures var h, p := HeaderOf(file), Parsed(file);
            && HEADER_LEN + h.eatLen + h.instLen + h.sstLen <= |file|
            && 8 * |p.words| == h.instLen > 0 && 16 * |p.sections| == h.sstLen
            && (if h.eatLen == 0 then p.eat == [0] else 8 * |p.eat| == h.eatLen)
            && (forall k :: 0 <= k < |p.sections| ==> p.sections[k].size % 8 == 0)
            && p.dataLen == Wrap(RimSum(p.sections))
            && (p.symbols <==> exists k :: 0 <= k < |p.sections| && p.sections[k].kind == Symd)
  {
    var h := HeaderOf(file);
    EntriesAt(file, h, h.eatLen / 8);
    InstructionsAt(file, h, HEADER_LEN + h.eatLen, h.instLen / 8);
    SectionsAt(file, h, HEADER_LEN + h.eatLen + h.instLen, h.sstLen / 16);
    assert forall k :: 0 <= k < |Sections(file, h)| ==>
        (Sections(file, h)[k].kind.Symd? <==> Sections(file, h)[k].kind == Symd);
  }

  /** The n bytes at `at` are the number, highest byte first. */
  predicate HighestFirst(file: seq<byte>, at: nat, n: nat, value: nat) {
    && at + n <= |file| && value < Pow256(n)
    && var bs := file[at..at + n];
       forall i :: 0 <= i < n ==> bs[i] == value / Pow256(n - 1 - i) % 256
  }

  lemma NumberAt(file: seq<byte>, at: nat, n: nat)
    requires at + n <= |file|
    ensures HighestFirst(file, at, n, BeValue(file[at..at + n]))
  {
    var bs := file[at..at + n];
    BeBytesOfValue(bs);
    forall i | 0 <= i < n ensures bs[i] == BeValue(bs) / Pow256(n - 1 - i) % 256 {
      BeDigit(BeValue(bs), n, i);
    }
  }

  lemma LengthsAreBytes(file: seq<byte>)
    requires HEADER_LEN <= |file|
    ensures var h := HeaderOf(file);
            && HighestFirst(file, 8, 8, h.instLen) && HighestFirst(file, 16, 8, h.eatLen)
            && HighestFirst(file, 24, 8, h.sstLen) && HighestFirst(file, 32, 8, h.stLen)
  {
    WordIsBytes(file, 8);
    WordIsBytes(file, 16);
    WordIsBytes(file, 24);
    WordIsBytes(file, 32);
  }

  lemma WordIsBytes(file: seq<byte>, at: nat)
    requires at + 8 <= |file|
    ensures HighestFirst(file, at, 8, BeWord(file[at..at + 8]))
  {
    NumberAt(file, at, 8);
  }

  /** The lengths in the header, highest byte first, and the flags of its tables: each is set by the one
      value 1 of its byte, and kept only if the table is there. */
  lemma HeaderIsBytes(file: seq<byte>)
    requires Accepted(file)
    ensures var h := Parsed(file).header;
            && HighestFirst(file, 8, 8, h.instLen) && HighestFirst(file, 16, 8, h.eatLen)
            && HighestFirst(file, 24, 8, h.sstLen) && HighestFirst(file, 32, 8, h.stLen)
            && (h.ste <==> file[7] == 1 && h.stLen != 0) && (h.de <==> file[6] == 1 && h.sstLen != 0)
  {
    LengthsAreBytes(file);
  }

  /** The n bytes at `at` are the number, lowest byte first. */
  predicate LowestFirst(file: seq<byte>, at: nat, n: nat, value: nat) {
    && at + n <= |file| && value < Pow256(n)
    && var bs := file[at..at + n];
       forall i :: 0 <= i < n ==> bs[i] == value / Pow256(i) % 256
  }

  lemma LowWordIsBytes(file: seq<byte>, at: nat)
    requires at + 8 <= |file|
    ensures LowestFirst(file, at, 8, LeWord(file[at..at + 8]))
  {
    var bs := file[at..at + 8];
    LeBytesOfValue(bs);
    forall i | 0 <= i < 8 ensures bs[i] == LeValue(bs) / Pow256(i) % 256 {
      LeDigit(LeValue(bs), 8, i);
    }
  }

  lemma TableOfWords(file: seq<byte>, at: nat, n: nat, k: nat)
    requires k < n && at + Start(n, 8) <= |file|
    ensures HighestFirst(file, at + 8 * k, 8, Table(file, at, 8, n, BeWord)[k])
    ensures LowestFirst(file, at + 8 * k, 8, Table(file, at, 8, n, LeWord)[k])
  {
    TableElement(file, at, 8, n, BeWord, k);
    TableElement(file, at, 8, n, LeWord, k);
    StartIsProduct(k, 8);
    WordIsBytes(file, at + 8 * k);
    LowWordIsBytes(file, at + 8 * k);
  }

  /** The start address of core k stands in the EAT, highest byte first. */
  lemma EntryIsBytes(file: seq<byte>, k: nat)
    requires Accepted(file) && k < HeaderOf(file).eatLen / 8
    ensures |Parsed(file).eat| == HeaderOf(file).eatLen / 8
    ensures HighestFirst(file, HEADER_LEN + 8 * k, 8, Parsed(file).eat[k])
  {
    var n := HeaderOf(file).eatLen / 8;
    EntriesAt(file, HeaderOf(file), n);
    TableOfWords(file, HEADER_LEN, n, k);
  }

  /** Instruction k stands behind the EAT, lowest byte first. */
  lemma InstructionIsBytes(file: seq<byte>, k: nat)
    requires Accepted(file) && k < HeaderOf(file).instLen / 8
    ensures |Parsed(file).words| == HeaderOf(file).instLen / 8
    ensures LowestFirst(file, HEADER_LEN + HeaderOf(file).eatLen + 8 * k, 8, Parsed(file).words[k])
  {
    var at, n := HEADER_LEN + HeaderOf(file).eatLen, HeaderOf(file).instLen / 8;
    InstructionsAt(file, HeaderOf(file), at, n);
    TableOfWords(file, at, n, k);
  }

  /** Section k stands in 16 bytes of its own. It is marked RIM exactly if bit 0 of its byte 9 is set and
      byte 8 says neither INFO nor SYMD. */
  predicate SectionIs(file: seq<byte>, at: nat, s: Section) {
    && at + 16 <= |file|
    && HighestFirst(file, at, 8, s.size) && HighestFirst(file, at + 12, 4, s.stIndex)
    && s.kind == (match file[at + 8] % 4 case 0 => Data case 1 => Info case 2 => Symd case _ => OtherKind)
    && (s.rim <==> file[at + 9] % 2 == 1 && (file[at + 8] % 4 == 0 || file[at + 8] % 4 == 3))
    && (s.ras <==> file[at + 10] % 2 == 1)
  }

  lemma SectionAt(file: seq<byte>, at: nat)
    requires at + 16 <= |file|
    ensures SectionIs(file, at, SectionOf(file[at..at + 16]))
  {
    var entry := file[at..at + 16];
    assert entry[0..8] == file[at..at + 8] && entry[12..16] == file[at + 12..at + 16];
    assert entry[8] == file[at + 8] && entry[9] == file[at + 9] && entry[10] == file[at + 10];
    WordIsBytes(file, at);
    NumberAt(file, at + 12, 4);
  }

  lemma TableOfSections(file: seq<byte>, at: nat, n: nat, k: nat)
    requires k < n && at + Start(n, 16) <= |file|
    ensures SectionIs(file, at + 16 * k, Table(file, at, 16, n, SectionOf)[k])
  {
    TableElement(file, at, 16, n, SectionOf, k);
    StartIsProduct(k, 16);
    SectionAt(file, at + 16 * k);
  }

  /** The sections of an accepted file are what their bytes say, one by one. */
  lemma SectionsAreBytes(file: seq<byte>, k: nat)
    requires Accepted(file) && k < HeaderOf(file).sstLen / 16
    ensures var h := HeaderOf(file);
            && |Parsed(file).sections| == h.sstLen / 16
            && SectionIs(file, HEADER_LEN + h.eatLen + h.instLen + 16 * k, Parsed(file).sections[k])
  {
    var h := HeaderOf(file);
    var at, n := HEADER_LEN + h.eatLen + h.instLen, h.sstLen / 16;
    SectionsAt(file, h, at, n);
    TableOfSections(file, at, n, k);
  }

  /** The sums add up over any split of the table, a section counting its size, and towards the data length
      only if it is marked RIM. */
  lemma {:induction false} SumsAdd(a: seq<Section>, b: seq<Section>)
    ensures SizeSum(a + b) == SizeSum(a) + SizeSum(b)
    ensures RimSum(a + b) == RimSum(a) + RimSum(b)
    decreases |b|
  {
    if b == [] {
      assert a + b == a;
    } else {
      var n := |b| - 1;
      SumsAdd(a, b[..n]);
      assert (a + b)[..|a + b| - 1] == a + b[..n];
    }
  }

  lemma SumOfOne(s: Section)
    ensures SizeSum([s]) == s.size && RimSum([s]) == if s.rim then s.size else 0
  {
    assert [s][..0] == [];
  }

  lemma {:induction false} TableOfTail<T>(f: seq<byte>, g: seq<byte>, at: nat, width: nat, n: nat,
                                          decode: seq<byte> -> T)
    requires 3 <= at && at + Start(n, width) <= |f| == |g| && f[3..] == g[3..]
    ensures Table(f, at, width, n, decode) == Table(g, at, width, n, decode)
  {
    if n > 0 {
      TableOfTail(f, g, at, width, n - 1, decode);
      SameSlice(f, g, at + Start(n - 1, width), at + Start(n, width));
    }
  }

  lemma SameSlice(f: seq<byte>, g: seq<byte>, i: nat, j: nat)
    requires 3 <= i <= j <= |f| == |g| && f[3..] == g[3..]
    ensures f[i..j] == g[i..j]
  {
    assert f[3..][i - 3..j - 3] == f[i..j];
    assert g[3..][i - 3..j - 3] == g[i..j];
  }

  lemma SameHeader(f: seq<byte>, g: seq<byte>)
    requires HEADER_LEN <= |f| == |g| && f[3..] == g[3..]
    ensures HeaderOf(f) == HeaderOf(g)
  {
    SameSlice(f, g, 6, 7);
    SameSlice(f, g, 7, 8);
    assert f[6..7][0] == g[6..7][0] && f[7..8][0] == g[7..8][0];
    SameSlice(f, g, 8, 16);
    SameSlice(f, g, 16, 24);
    SameSlice(f, g, 24, 32);
    SameSlice(f, g, 32, 40);
  }

  lemma SameSections(f: seq<byte>, g: seq<byte>, h: Header)
    requires |f| == |g| && Complete(f, h) && f[3..] == g[3..]
    ensures Sections(f, h) == Sections(g, h)
  {
    WholeRecords(h.sstLen, SST_ENTRY);
    TableOfTail(f, g, HEADER_LEN + h.eatLen + h.instLen, SST_ENTRY, h.sstLen / SST_ENTRY, SectionOf);
  }

  /** One right letter of the magic is enough: an accepted file stays accepted whatever its first three
      bytes are changed to, as long as one of them is right. */
  lemma OneLetterIsEnough(file: seq<byte>, g: seq<byte>)
    requires HEADER_LEN <= |file| == |g| && Accepted(file) && g[3..] == file[3..]
    ensures Accepted(g) <==> g[0] == 0x4D || g[1] == 0x49 || g[2] == 0x4E
  {
    SameHeader(file, g);
    SameSections(file, g, HeaderOf(file));
  }
}
