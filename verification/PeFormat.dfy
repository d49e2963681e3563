/**
 Image files as a linker writes them, field after field (sections 2 to 4 of the PE Format specification).  The parser
 reads back what was written, and accepts nothing else.
 */
module PeFormat {
  import opened Wrappers
  import opened Bytes
  import opened Alignment
  import opened PeHeader

  /** One entry of the section table: name, virtual size and address, raw data, and what follows. */
  datatype SectionHeader = SectionHeader(front: seq<Byte>, rawSize: nat, rawOffset: nat, tail: seq<Byte>)

  /** One data directory. */
  datatype Directory = Directory(offset: nat, size: nat)

  datatype Fields = Fields(
    dos: seq<Byte>,               // the DOS header between its magic and e_lfanew
    stub: seq<Byte>,              // what lies between the DOS header and the PE signature
    machine: nat,
    symbols: seq<Byte>,           // time stamp and symbol table
    characteristics: seq<Byte>,
    wide: bool,                   // PE32+
    standard: seq<Byte>,          // linker version to SectionAlignment
    fileAlignment: nat,
    versions: seq<Byte>,          // operating system version to SizeOfImage
    sizeOfHeaders: nat,
    checkSum: seq<Byte>,
    subsystem: nat,
    reserves: seq<Byte>,          // DllCharacteristics, stack and heap sizes, LoaderFlags
    directories: seq<Directory>,
    padding: seq<Byte>,           // up to SizeOfOptionalHeader
    sections: seq<SectionHeader>,
    rest: seq<Byte>)

  /** Table 3.3.1 of the specification, as far as firmware images use it. */
  predicate Machine(machine: nat, architecture: Architecture, wide: bool) {
    || (machine == 0x014C && architecture == Ia32 && !wide)
    || (machine in {0x01C0, 0x01C2, 0x01C4} && architecture == Arm && !wide)
    || (machine == 0x8664 && architecture == X64 && wide)
    || (machine == 0xAA64 && architecture == Aarch64 && wide)
  }

  // ----- writing

  function DirectoryBytes(directories: seq<Directory>): (s: seq<Byte>)
    ensures |s| == 8 * |directories|
  {
    if directories == [] then []
    else
      var last := directories[|directories| - 1];
      DirectoryBytes(directories[..|directories| - 1]) + (Le32(last.offset) + Le32(last.size))
  }

  predicate Sized(x: SectionHeader) {
    |x.front| == |x.tail| == 16 && x.rawSize < 0x1_0000_0000 && x.rawOffset < 0x1_0000_0000
  }

  function Row(x: SectionHeader): (s: seq<Byte>)
    requires Sized(x)
    ensures |s| == 40
  {
    x.front + Le32(x.rawSize) + Le32(x.rawOffset) + x.tail
  }

  function TableBytes(sections: seq<SectionHeader>): (s: seq<Byte>)
    requires forall x :: x in sections ==> Sized(x)
    ensures |s| == 40 * |sections|
  {
    if sections == [] then []
    else TableBytes(sections[..|sections| - 1]) + Row(sections[|sections| - 1])
  }

  function DosBytes(f: Fields): seq<Byte> {
    [0x4D, 0x5A] + f.dos + Le32(64 + |f.stub|) + f.stub
  }

  function CoffBytes(f: Fields): seq<Byte> {
    [0x50, 0x45, 0, 0] + Le16(f.machine) + Le16(|f.sections|) + f.symbols + Le16(|OptionalBytes(f)|)
    + f.characteristics
  }

  function OptionalBytes(f: Fields): seq<Byte> {
    InARow(
      Le16(if f.wide then 0x20B else 0x10B), f.standard, Le32(f.fileAlignment), f.versions, Le32(f.sizeOfHeaders),
      f.checkSum, Le16(f.subsystem), f.reserves, Le32(|f.directories|), DirectoryBytes(f.directories), f.padding)
  }

  function InARow(
    a: seq<Byte>, b: seq<Byte>, c: seq<Byte>, d: seq<Byte>, e: seq<Byte>, g: seq<Byte>, h: seq<Byte>, i: seq<Byte>,
    j: seq<Byte>, k: seq<Byte>, l: seq<Byte>): seq<Byte>
  {
    a + b + c + d + e + g + h + i + j + k + l
  }

  /** The field widths of the specification. */
  predicate WellSized(f: Fields) {
    && |f.dos| == 58 && |f.symbols| == 12 && |f.characteristics| == 2
    && |f.standard| == 34 && |f.versions| == 20 && |f.checkSum| == 4
    && |f.reserves| == 2 + 4 * (if f.wide then 8 else 4) + 4
    && (forall x :: x in f.sections ==> Sized(x))
    && (forall d :: d in f.directories ==> d.offset < 0x1_0000_0000 && d.size < 0x1_0000_0000)
    && f.fileAlignment < 0x1_0000_0000 && f.sizeOfHeaders < 0x1_0000_0000 && f.subsystem < 0x1_0000
  }

  function Image(f: Fields): seq<Byte>
    requires WellSized(f)
  {
    DosBytes(f) + CoffBytes(f) + OptionalBytes(f) + TableBytes(f.sections) + f.rest
  }

  /** Where the parts start. */
  function CoffStart(f: Fields): nat { 64 + |f.stub| }
  function OptionalStart(f: Fields): nat { CoffStart(f) + 24 }

  function OptionalSize(f: Fields): nat {
    (if f.wide then 112 else 96) + 8 * |f.directories| + |f.padding|
  }

  function TableStart(f: Fields): nat { OptionalStart(f) + OptionalSize(f) }
  function ImageSize(f: Fields): nat { TableStart(f) + 40 * |f.sections| + |f.rest| }

  /** The directory of certificates is the fifth. */
  function Certificate(f: Fields): Directory {
    if |f.directories| > 4 then f.directories[4] else Directory(0, 0)
  }

  /** What a linker owes the firmware. */
  ghost predicate Linked(f: Fields, architecture: Architecture) {
    && WellSized(f) && Machine(f.machine, architecture, f.wide)
    && |f.sections| <= MAX_SECTIONS && OptionalSize(f) < 0x1_0000 && ImageSize(f) <= MAX_PE_BYTES
    && TableStart(f) + 40 * |f.sections| <= f.sizeOfHeaders <= ImageSize(f)
    && PowerOfTwo(f.fileAlignment)
    && var c := Certificate(f);
       && (c.offset == 0 <==> c.size == 0)
       && (c.size > 0 ==> c.offset % 8 == 0 && f.sizeOfHeaders <= c.offset && c.offset + c.size <= ImageSize(f))
  }

  /** What the parser ought to say. */
  function HeaderFor(f: Fields, architecture: Architecture): Header {
    Header(
      f.machine, architecture, f.subsystem, OptionalStart(f) + 2 + 34 + 4 + 20 + 4, TableStart(f), |f.sections|,
      f.sizeOfHeaders,
      if |f.directories| > 4 then Some(TableStart(f) - |f.padding| - 8 * (|f.directories| - 4)) else None,
      Certificate(f).offset, Certificate(f).size, f.fileAlignment)
  }

  // ----- reading a part of a whole

  predicate At(blob: seq<Byte>, o: nat, part: seq<Byte>) {
    o + |part| <= |blob| && blob[o..o + |part|] == part
  }

  lemma AtPart(blob: seq<Byte>, o: nat, part: seq<Byte>, k: nat, piece: seq<Byte>)
    requires At(blob, o, part) && At(part, k, piece)
    ensures At(blob, o + k, piece)
  {
    assert part[k..k + |piece|] == piece;
    forall i | 0 <= i < |piece| ensures blob[o + k + i] == piece[i] {
      assert blob[o..o + |part|][k + i] == part[k + i] == part[k..k + |piece|][i];
    }
  }

  lemma Middle(before: seq<Byte>, piece: seq<Byte>, after: seq<Byte>)
    ensures At(before + piece + after, |before|, piece)
  {
  }

  lemma ReadLe32(blob: seq<Byte>, o: nat, v: nat)
    requires At(blob, o, Le32(v)) && v < 0x1_0000_0000
    ensures U32At(blob, o) == v
  {
    hide Le32;
    var s := Le32(v);
    assert blob[o..o + 4] == s;
    assert blob[o] == s[0] && blob[o + 1] == s[1] && blob[o + 2] == s[2] && blob[o + 3] == s[3];
  }

  lemma ReadLe16(blob: seq<Byte>, o: nat, v: nat)
    requires At(blob, o, Le16(v)) && v < 0x1_0000
    ensures U16At(blob, o) == v && U16(blob, o) == Success(v)
  {
    hide Le16;
    var s := Le16(v);
    assert blob[o..o + 2] == s;
    assert blob[o] == s[0] && blob[o + 1] == s[1];
  }

  lemma ImageParts(f: Fields)
    requires WellSized(f)
    ensures |Image(f)| == ImageSize(f) && |OptionalBytes(f)| == OptionalSize(f)
    ensures At(Image(f), 0, DosBytes(f)) && At(Image(f), CoffStart(f), CoffBytes(f))
    ensures At(Image(f), OptionalStart(f), OptionalBytes(f)) && At(Image(f), TableStart(f), TableBytes(f.sections))
  {
    var (d, c, o, t) := (DosBytes(f), CoffBytes(f), OptionalBytes(f), TableBytes(f.sections));
    assert |d| == CoffStart(f) && |c| == 24 && |o| == OptionalSize(f);
    FourParts(d, c, o, t, f.rest);
  }

  lemma FourParts(a: seq<Byte>, b: seq<Byte>, c: seq<Byte>, d: seq<Byte>, rest: seq<Byte>)
    ensures
      var whole := a + b + c + d + rest;
      && At(whole, 0, a) && At(whole, |a|, b) && At(whole, |a| + |b|, c) && At(whole, |a| + |b| + |c|, d)
      && At(whole, |a| + |b| + |c| + |d|, rest)
  {
    hide At;
    var ab, abc, abcd := a + b, a + b + c, a + b + c + d;
    var whole := abcd + rest;
    Halves(abcd, rest);
    Halves(abc, d);
    AtPart(whole, 0, abcd, |abc|, d);
    AtPart(whole, 0, abcd, 0, abc);
    Halves(ab, c);
    AtPart(whole, 0, abc, |ab|, c);
    AtPart(whole, 0, abc, 0, ab);
    Halves(a, b);
    AtPart(whole, 0, ab, |a|, b);
    AtPart(whole, 0, ab, 0, a);
  }

  lemma Halves(a: seq<Byte>, b: seq<Byte>)
    ensures At(a + b, 0, a) && At(a + b, |a|, b)
  {
  }

  lemma DosParts(f: Fields)
    requires WellSized(f)
    ensures
      var s := DosBytes(f);
      |s| == CoffStart(f) && At(s, 0, [0x4D, 0x5A]) && At(s, 60, Le32(CoffStart(f)))
  {
    var s, e := DosBytes(f), Le32(64 + |f.stub|);
    Middle([0x4D, 0x5A] + f.dos, e, f.stub);
  }

  lemma CoffParts(f: Fields)
    requires WellSized(f)
    ensures
      var s := CoffBytes(f);
      && |s| == 24 && At(s, 0, [0x50, 0x45, 0, 0]) && At(s, 4, Le16(f.machine)) && At(s, 6, Le16(|f.sections|))
      && At(s, 20, Le16(|OptionalBytes(f)|))
  {
    hide OptionalBytes;
    var s, m, n, o := CoffBytes(f), Le16(f.machine), Le16(|f.sections|), Le16(|OptionalBytes(f)|);
    var a := [0x50, 0x45, 0, 0];
    FourParts(a, m, n, f.symbols, o + f.characteristics);
    assert s == a + m + n + f.symbols + (o + f.characteristics);
    Middle(a + m + n + f.symbols, o, f.characteristics);
  }

  /** Where the fields of the optional header are, for either width. */
  lemma OptionalParts(f: Fields)
    requires WellSized(f)
    ensures
      var (s, count) := (OptionalBytes(f), if f.wide then 108 else 92);
      && |s| == OptionalSize(f)
      && At(s, 0, Le16(if f.wide then 0x20B else 0x10B)) && At(s, 36, Le32(f.fileAlignment))
      && At(s, 60, Le32(f.sizeOfHeaders)) && At(s, 68, Le16(f.subsystem))
      && At(s, count, Le32(|f.directories|)) && At(s, count + 4, DirectoryBytes(f.directories))
  {
    hide Le16, Le32, DirectoryBytes, InARow;
    Sequence(
      Le16(if f.wide then 0x20B else 0x10B), f.standard, Le32(f.fileAlignment), f.versions, Le32(f.sizeOfHeaders),
      f.checkSum, Le16(f.subsystem), f.reserves, Le32(|f.directories|), DirectoryBytes(f.directories), f.padding);
  }

  /** Eleven parts in a row. */
  lemma Sequence(
    a: seq<Byte>, b: seq<Byte>, c: seq<Byte>, d: seq<Byte>, e: seq<Byte>, g: seq<Byte>, h: seq<Byte>, i: seq<Byte>,
    j: seq<Byte>, k: seq<Byte>, l: seq<Byte>)
    ensures
      var (s, x, y) := (InARow(a, b, c, d, e, g, h, i, j, k, l), |a| + |b| + |c| + |d|, |e| + |g| + |h| + |i|);
      && |s| == x + y + |j| + |k| + |l|
      && At(s, 0, a) && At(s, |a| + |b|, c) && At(s, x, e) && At(s, x + |e| + |g|, h)
      && At(s, x + y, j) && At(s, x + y + |j|, k)
  {
    hide At;
    var last := j + k + l;
    var back := e + g + h + i + last;
    var s := a + b + c + d + back;
    Regroup(a + b + c + d, e, g, h, i, j, k, l);
    FourParts(a, b, c, d, back);
    FourParts(e, g, h, i, last);
    FourParts(j, k, l, [], []);
    assert j + k + l + [] + [] == last;
    var x, y := |a| + |b| + |c| + |d|, |e| + |g| + |h| + |i|;
    AtPart(s, x, back, 0, e);
    AtPart(s, x, back, |e| + |g|, h);
    AtPart(back, y, last, 0, j);
    AtPart(back, y, last, |j|, k);
    AtPart(s, x, back, y, j);
    AtPart(s, x, back, y + |j|, k);
  }

  lemma Regroup(
    front: seq<Byte>, e: seq<Byte>, g: seq<Byte>, h: seq<Byte>, i: seq<Byte>, j: seq<Byte>, k: seq<Byte>, l: seq<Byte>)
    ensures front + e + g + h + i + j + k + l == front + (e + g + h + i + (j + k + l))
  {
    var middle, last := e + g + h + i, j + k + l;
    assert front + e + g + h + i == front + middle;
    assert front + middle + j + k + l == front + middle + last;
  }

  lemma {:induction false} DirectoryAt(directories: seq<Directory>, k: nat)
    requires k < |directories|
    ensures At(DirectoryBytes(directories), 8 * k, Le32(directories[k].offset))
    ensures At(DirectoryBytes(directories), 8 * k + 4, Le32(directories[k].size))
  {
    hide Le32;
    var front, last := directories[..|directories| - 1], directories[|directories| - 1];
    var before, a, b := DirectoryBytes(front), Le32(last.offset), Le32(last.size);
    assert DirectoryBytes(directories) == before + (a + b) == before + a + b == before + a + b + [];
    if k < |front| {
      DirectoryAt(front, k);
      Middle([], before, a + b);
      assert [] + before + (a + b) == DirectoryBytes(directories);
      AtPart(DirectoryBytes(directories), 0, before, 8 * k, Le32(directories[k].offset));
      AtPart(DirectoryBytes(directories), 0, before, 8 * k + 4, Le32(directories[k].size));
    } else {
      Middle(before, a, b);
      Middle(before + a, b, []);
    }
  }

  lemma {:induction false} RowAt(sections: seq<SectionHeader>, k: nat)
    requires k < |sections| && forall x :: x in sections ==> Sized(x)
    ensures At(TableBytes(sections), 40 * k, Row(sections[k]))
  {
    hide Row;
    var front, last := sections[..|sections| - 1], sections[|sections| - 1];
    var before := TableBytes(front);
    if k < |front| {
      RowAt(front, k);
      Middle([], before, Row(last));
      assert [] + before + Row(last) == TableBytes(sections);
      AtPart(TableBytes(sections), 0, before, 40 * k, Row(sections[k]));
    } else {
      Middle(before, Row(last), []);
      assert before + Row(last) + [] == TableBytes(sections);
    }
  }

  lemma RowParts(x: SectionHeader)
    requires Sized(x)
    ensures At(Row(x), 16, Le32(x.rawSize)) && At(Row(x), 20, Le32(x.rawOffset))
  {
    hide Le32;
    FourParts(x.front, Le32(x.rawSize), Le32(x.rawOffset), x.tail, []);
    assert Row(x) == x.front + Le32(x.rawSize) + Le32(x.rawOffset) + x.tail + [];
  }

  // ----- what is written is read back

  lemma MachineTable(machine: nat, architecture: Architecture, wide: bool)
    ensures Machine(machine, architecture, wide) <==>
            ArchitectureOf(machine) == Some(architecture) && (wide <==> ExpectedMagic(architecture) == 0x20B)
  {
  }

  lemma ReadPart(blob: seq<Byte>, o: nat, part: seq<Byte>)
    requires At(blob, o, part)
    ensures Slice(blob, o, |part|) == Success(part)
  {
  }

  /** The fields of the DOS and COFF headers, in the whole image. */
  lemma CoffFields(f: Fields, architecture: Architecture)
    requires Linked(f, architecture)
    ensures
      var (blob, pe) := (Image(f), CoffStart(f));
      && |blob| == ImageSize(f) && At(blob, 0, [0x4D, 0x5A]) && U32At(blob, 60) == pe
      && At(blob, pe, [0x50, 0x45, 0, 0]) && U16(blob, pe + 4) == Success(f.machine)
      && U16(blob, pe + 6) == Success(|f.sections|) && U16(blob, pe + 20) == Success(OptionalSize(f))
  {
    hide Image, DosBytes, CoffBytes, OptionalBytes, Le16, Le32, U16, U32At, Machine, PowerOfTwo, At;
    var blob, pe := Image(f), CoffStart(f);
    ImageParts(f);
    DosParts(f);
    CoffParts(f);
    AtPart(blob, 0, DosBytes(f), 0, [0x4D, 0x5A]);
    AtPart(blob, 0, DosBytes(f), 60, Le32(pe));
    ReadLe32(blob, 60, pe);
    AtPart(blob, pe, CoffBytes(f), 0, [0x50, 0x45, 0, 0]);
    AtPart(blob, pe, CoffBytes(f), 4, Le16(f.machine));
    AtPart(blob, pe, CoffBytes(f), 6, Le16(|f.sections|));
    AtPart(blob, pe, CoffBytes(f), 20, Le16(OptionalSize(f)));
    MachineFits(f, architecture);
    ReadLe16(blob, pe + 4, f.machine);
    ReadLe16(blob, pe + 6, |f.sections|);
    ReadLe16(blob, pe + 20, OptionalSize(f));
  }

  lemma MachineFits(f: Fields, architecture: Architecture)
    requires Machine(f.machine, architecture, f.wide)
    ensures f.machine < 0x1_0000
  {
  }

  lemma CoffIsParsed(f: Fields, architecture: Architecture)
    requires Linked(f, architecture)
    ensures ParseCoff(Image(f)) ==
            Success(Coff(f.machine, architecture, |f.sections|, OptionalStart(f), OptionalSize(f)))
  {
    hide Image, U16, U32At, PowerOfTwo, Machine, ArchitectureOf, Slice;
    var blob, pe := Image(f), CoffStart(f);
    CoffFields(f, architecture);
    MachineTable(f.machine, architecture, f.wide);
    assert blob[..2] == blob[0..2];
    ReadPart(blob, pe, [0x50, 0x45, 0, 0]);
    SomeSlice(blob, OptionalStart(f), OptionalSize(f));
  }

  lemma SomeSlice(blob: seq<Byte>, o: nat, n: nat)
    requires o + n <= |blob|
    ensures Slice(blob, o, n).Success?
  {
  }

  /** The fields of the optional header, in the whole image. */
  lemma OptionalFields(f: Fields, architecture: Architecture)
    requires Linked(f, architecture)
    ensures
      var (blob, o, count) := (Image(f), OptionalStart(f), if f.wide then 108 else 92);
      && o + OptionalSize(f) <= |blob| == ImageSize(f)
      && U16At(blob, o) == (if f.wide then 0x20B else 0x10B) && U32At(blob, o + 36) == f.fileAlignment
      && U32At(blob, o + 60) == f.sizeOfHeaders && U16At(blob, o + 68) == f.subsystem
      && U32At(blob, o + count) == |f.directories|
      && (|f.directories| > 4 ==>
            && U32At(blob, o + count + 36) == Certificate(f).offset
            && U32At(blob, o + count + 40) == Certificate(f).size)
  {
    hide Image, OptionalBytes, DirectoryBytes, Le16, Le32, U16At, U32At, U16, Machine, PowerOfTwo, At;
    var blob, o, part, count := Image(f), OptionalStart(f), OptionalBytes(f), if f.wide then 108 else 92;
    ImageParts(f);
    OptionalParts(f);
    var magic := if f.wide then 0x20B else 0x10B;
    AtPart(blob, o, part, 0, Le16(magic));
    ReadLe16(blob, o, magic);
    AtPart(blob, o, part, 36, Le32(f.fileAlignment));
    ReadLe32(blob, o + 36, f.fileAlignment);
    AtPart(blob, o, part, 60, Le32(f.sizeOfHeaders));
    ReadLe32(blob, o + 60, f.sizeOfHeaders);
    AtPart(blob, o, part, 68, Le16(f.subsystem));
    ReadLe16(blob, o + 68, f.subsystem);
    AtPart(blob, o, part, count, Le32(|f.directories|));
    ReadLe32(blob, o + count, |f.directories|);
    if |f.directories| > 4 {
      AtPart(blob, o, part, count + 4, DirectoryBytes(f.directories));
      CertificateFields(f, blob, o + count + 4);
    }
  }

  lemma CertificateFields(f: Fields, blob: seq<Byte>, o: nat)
    requires |f.directories| > 4 && At(blob, o, DirectoryBytes(f.directories))
    requires Certificate(f).offset < 0x1_0000_0000 && Certificate(f).size < 0x1_0000_0000
    ensures o + 40 <= |blob|
    ensures U32At(blob, o + 32) == Certificate(f).offset && U32At(blob, o + 36) == Certificate(f).size
  {
    hide DirectoryBytes, Le32, U32At;
    var table, entry := DirectoryBytes(f.directories), f.directories[4];
    DirectoryAt(f.directories, 4);
    AtPart(blob, o, table, 32, Le32(entry.offset));
    AtPart(blob, o, table, 36, Le32(entry.size));
    ReadLe32(blob, o + 32, entry.offset);
    ReadLe32(blob, o + 36, entry.size);
  }

  /** Whatever a linker writes, the parser reads back. */
  lemma WrittenIsParsed(f: Fields, architecture: Architecture)
    requires Linked(f, architecture)
    ensures ParseHeader(Image(f)) == Success(HeaderFor(f, architecture))
  {
    hide Image, U16At, U32At, PowerOfTwo, Machine, ParseCoff, Slice, BitAnd;
    var blob := Image(f);
    CoffIsParsed(f, architecture);
    OptionalFields(f, architecture);
    MachineTable(f.machine, architecture, f.wide);
    assert f.fileAlignment > 0 by { PowersArePositive(f.fileAlignment); }
    PowerOfTwoTest(f.fileAlignment);
    var c := Certificate(f);
    if c.size > 0 {
      SomeSlice(blob, c.offset, c.size);
    }
  }

  lemma PowersArePositive(n: nat)
    requires PowerOfTwo(n)
    ensures n > 0
  {
  }

  /** The sections with raw data. */
  function WithData(sections: seq<SectionHeader>): seq<Section> {
    if sections == [] then []
    else
      var last := sections[|sections| - 1];
      WithData(sections[..|sections| - 1])
      + if last.rawSize == 0 then [] else [Section(last.rawOffset, last.rawSize)]
  }

  lemma SectionIsRead(f: Fields, architecture: Architecture, k: nat)
    requires Linked(f, architecture) && k < |f.sections|
    ensures HeaderFor(f, architecture).Valid(|Image(f)|)
    ensures
      var x := f.sections[k];
      SectionAt(Image(f), HeaderFor(f, architecture), k) == Section(x.rawOffset, x.rawSize)
  {
    hide Image, TableBytes, Row, Le32, U32At, PowerOfTwo, Machine, ParseHeader, At;
    var blob, x, at := Image(f), f.sections[k], TableStart(f) + 40 * k;
    WrittenIsParsed(f, architecture);
    ImageParts(f);
    RowAt(f.sections, k);
    RowParts(x);
    AtPart(blob, TableStart(f), TableBytes(f.sections), 40 * k, Row(x));
    AtPart(blob, at, Row(x), 16, Le32(x.rawSize));
    AtPart(blob, at, Row(x), 20, Le32(x.rawOffset));
    ReadLe32(blob, at + 16, x.rawSize);
    ReadLe32(blob, at + 20, x.rawOffset);
  }

  /** And so is its section table, whatever its length. */
  lemma {:induction false} WrittenSectionsAreRead(f: Fields, architecture: Architecture, count: nat)
    requires Linked(f, architecture) && count <= |f.sections|
    ensures HeaderFor(f, architecture).Valid(|Image(f)|)
    ensures RawSections(Image(f), HeaderFor(f, architecture), count) == WithData(f.sections[..count])
  {
    hide Image, Linked, HeaderFor, ParseHeader, SectionAt;
    WrittenIsParsed(f, architecture);
    if count > 0 {
      assert |f.sections| == HeaderFor(f, architecture).sectionCount by { CountIsKept(f, architecture); }
      SectionIsRead(f, architecture, count - 1);
      WrittenSectionsAreRead(f, architecture, count - 1);
      assert f.sections[..count][..count - 1] == f.sections[..count - 1];
    }
  }

  lemma CountIsKept(f: Fields, architecture: Architecture)
    ensures HeaderFor(f, architecture).sectionCount == |f.sections|
  {
  }

  // ----- nothing else is accepted

  lemma StoredLe32(blob: seq<Byte>, o: nat)
    requires o + 4 <= |blob|
    ensures Le32(U32At(blob, o)) == blob[o..o + 4]
  {
    var (b0, b1, b2, b3) := (blob[o] as int, blob[o + 1] as int, blob[o + 2] as int, blob[o + 3] as int);
    var v := U32At(blob, o);
    assert v == b0 + 256 * (b1 + 256 * (b2 + 256 * b3));
    assert v / 256 == b1 + 256 * (b2 + 256 * b3) && v % 256 == b0;
    assert v / 256 / 256 == b2 + 256 * b3 && v / 256 % 256 == b1;
    assert v / 256 / 256 / 256 == b3;
  }

  lemma StoredLe16(blob: seq<Byte>, o: nat)
    requires o + 2 <= |blob|
    ensures Le16(U16At(blob, o)) == blob[o..o + 2]
  {
    var b0, b1 := blob[o] as int, blob[o + 1] as int;
    assert (b0 + 256 * b1) / 256 == b1 && (b0 + 256 * b1) % 256 == b0;
  }

  lemma Glue(blob: seq<Byte>, a: nat, b: nat, c: nat)
    requires a <= b <= c <= |blob|
    ensures blob[a..b] + blob[b..c] == blob[a..c]
  {
  }

  function DirectoriesIn(blob: seq<Byte>, o: nat, n: nat): (s: seq<Directory>)
    requires o + 8 * n <= |blob|
    ensures |s| == n && forall d :: d in s ==> d.offset < 0x1_0000_0000 && d.size < 0x1_0000_0000
  {
    if n == 0 then []
    else DirectoriesIn(blob, o, n - 1) + [Directory(U32At(blob, o + 8 * n - 8), U32At(blob, o + 8 * n - 4))]
  }

  lemma {:induction false} DirectoryIn(blob: seq<Byte>, o: nat, n: nat, k: nat)
    requires o + 8 * n <= |blob| && k < n
    ensures DirectoriesIn(blob, o, n)[k] == Directory(U32At(blob, o + 8 * k), U32At(blob, o + 8 * k + 4))
  {
    hide U32At;
    if k < n - 1 {
      DirectoryIn(blob, o, n - 1, k);
    }
  }

  lemma StoredDirectory(blob: seq<Byte>, at: nat)
    requires at + 8 <= |blob|
    ensures Le32(U32At(blob, at)) + Le32(U32At(blob, at + 4)) == blob[at..at + 8]
  {
    hide U32At, Le32;
    StoredLe32(blob, at);
    StoredLe32(blob, at + 4);
    Glue(blob, at, at + 4, at + 8);
  }

  lemma {:induction false} DirectoriesAreStored(blob: seq<Byte>, o: nat, n: nat)
    requires o + 8 * n <= |blob|
    ensures DirectoryBytes(DirectoriesIn(blob, o, n)) == blob[o..o + 8 * n]
  {
    hide U32At, Le32;
    if n > 0 {
      DirectoriesAreStored(blob, o, n - 1);
      var front, at := DirectoriesIn(blob, o, n - 1), o + 8 * n - 8;
      var last := Directory(U32At(blob, at), U32At(blob, at + 4));
      assert (front + [last])[..n - 1] == front;
      StoredDirectory(blob, at);
      Glue(blob, o, at, at + 8);
    }
  }

  function RowsIn(blob: seq<Byte>, o: nat, n: nat): (s: seq<SectionHeader>)
    requires o + 40 * n <= |blob|
    ensures |s| == n && forall x :: x in s ==> Sized(x)
  {
    if n == 0 then []
    else RowsIn(blob, o, n - 1) + [RowIn(blob, o + 40 * n - 40)]
  }

  function RowIn(blob: seq<Byte>, at: nat): (x: SectionHeader)
    requires at + 40 <= |blob|
    ensures Sized(x)
  {
    SectionHeader(blob[at..at + 16], U32At(blob, at + 16), U32At(blob, at + 20), blob[at + 24..at + 40])
  }

  lemma StoredRow(blob: seq<Byte>, at: nat)
    requires at + 40 <= |blob|
    ensures Row(RowIn(blob, at)) == blob[at..at + 40]
  {
    hide U32At, Le32;
    StoredLe32(blob, at + 16);
    StoredLe32(blob, at + 20);
    Glue(blob, at, at + 16, at + 20);
    Glue(blob, at, at + 20, at + 24);
    Glue(blob, at, at + 24, at + 40);
  }

  lemma {:induction false} RowsAreStored(blob: seq<Byte>, o: nat, n: nat)
    requires o + 40 * n <= |blob|
    ensures TableBytes(RowsIn(blob, o, n)) == blob[o..o + 40 * n]
  {
    hide U32At, Le32, Row, RowIn;
    if n > 0 {
      RowsAreStored(blob, o, n - 1);
      var front, at := RowsIn(blob, o, n - 1), o + 40 * n - 40;
      StoredRow(blob, at);
      assert (front + [RowIn(blob, at)])[..n - 1] == front;
      Glue(blob, o, at, at + 40);
    }
  }

  /** The fields of an image whose parts start at the given places. */
  function FieldsAt(blob: seq<Byte>, pe: nat, machine: nat, sectionCount: nat, count: nat, table: nat): Fields
    requires 64 <= pe && pe + 94 <= count && count + 4 <= table && table + 40 * sectionCount <= |blob|
    requires count + 4 + 8 * U32At(blob, count) <= table
  {
    var (o, n) := (pe + 24, U32At(blob, count));
    Fields(
      blob[2..60], blob[64..pe], machine, blob[pe + 8..pe + 20], blob[pe + 22..o], U16At(blob, o) == 0x20B,
      blob[o + 2..o + 36], U32At(blob, o + 36), blob[o + 40..o + 60], U32At(blob, o + 60), blob[o + 64..o + 68],
      U16At(blob, o + 68), blob[o + 70..count], DirectoriesIn(blob, count + 4, n), blob[count + 4 + 8 * n..table],
      RowsIn(blob, table, sectionCount), blob[table + 40 * sectionCount..])
  }

  /** Where NumberOfRvaAndSizes is. */
  function CountAt(blob: seq<Byte>, o: nat): nat
    requires o + 2 <= |blob|
  {
    o + if U16At(blob, o) == 0x20B then 108 else 92
  }

  /** What the parser has checked when it accepts an image with the given COFF header. */
  ghost predicate Checked(blob: seq<Byte>, c: Coff) {
    var o, table := c.optional, c.optional + c.optionalSize;
    && 64 <= |blob| <= MAX_PE_BYTES && c.sectionCount <= MAX_SECTIONS
    && 64 <= U32At(blob, 60) && o == U32At(blob, 60) + 24 && o + 96 <= table
    && table + 40 * c.sectionCount <= |blob| && table + 40 * c.sectionCount <= U32At(blob, o + 60) <= |blob|
    && U16At(blob, o) == ExpectedMagic(c.architecture)
    && CountAt(blob, o) + 4 <= table && CountAt(blob, o) + 4 + 8 * U32At(blob, CountAt(blob, o)) <= table
    && AcceptedAlignment(U32At(blob, o + 36))
    && (U32At(blob, CountAt(blob, o)) > 4 ==> CheckedTable(blob, CountAt(blob, o), U32At(blob, o + 60)))
  }

  ghost predicate CheckedTable(blob: seq<Byte>, count: nat, sizeOfHeaders: nat)
    requires count + 44 <= |blob|
  {
    var offset, size := U32At(blob, count + 36), U32At(blob, count + 40);
    && (offset == 0 <==> size == 0)
    && (size > 0 ==> offset % 8 == 0 && sizeOfHeaders <= offset && offset + size <= |blob|)
  }

  lemma ParserFacts(blob: seq<Byte>)
    requires ParseHeader(blob).Success?
    ensures ParseCoff(blob).Success? && ParseHeader(blob).value.architecture == ParseCoff(blob).value.architecture
    ensures Checked(blob, ParseCoff(blob).value)
  {
    hide U16At, U32At, AcceptedAlignment, Slice;
  }

  /** The fields of an accepted image. */
  function FieldsOf(blob: seq<Byte>): Fields
    requires ParseCoff(blob).Success? && Checked(blob, ParseCoff(blob).value)
  {
    var c := ParseCoff(blob).value;
    FieldsAt(blob, U32At(blob, 60), c.machine, c.sectionCount, CountAt(blob, c.optional), c.optional + c.optionalSize)
  }

  lemma U16IsThere(blob: seq<Byte>, o: nat)
    ensures U16(blob, o).Success? ==> o + 2 <= |blob| && U16(blob, o).value == U16At(blob, o)
  {
  }

  lemma CoffAccepted(blob: seq<Byte>)
    requires ParseCoff(blob).Success?
    ensures
      var (c, pe) := (ParseCoff(blob).value, U32At(blob, 60));
      && 64 <= pe && c.optional == pe + 24 <= |blob|
      && blob[0..2] == [0x4D, 0x5A] && blob[pe..pe + 4] == [0x50, 0x45, 0, 0]
      && c.machine == U16At(blob, pe + 4) && c.sectionCount == U16At(blob, pe + 6)
      && c.optionalSize == U16At(blob, pe + 20) && ArchitectureOf(c.machine) == Some(c.architecture)
  {
    hide U16, U16At, U32At, ArchitectureOf, AcceptedAlignment;
    var pe := U32At(blob, 60);
    U16IsThere(blob, pe + 4);
    U16IsThere(blob, pe + 6);
    U16IsThere(blob, pe + 20);
    assert blob[..2] == blob[0..2];
  }

  lemma OptionalStored(blob: seq<Byte>, c: Coff)
    requires Checked(blob, c)
    ensures c.optional + c.optionalSize <= |blob|
    ensures
      var f := FieldsAt(blob, c.optional - 24, c.machine, c.sectionCount, CountAt(blob, c.optional),
                        c.optional + c.optionalSize);
      OptionalBytes(f) == blob[c.optional..c.optional + c.optionalSize]
  {
    hide U16At, U32At, AcceptedAlignment, CheckedTable, FieldsAt, OptionalBytes;
    var o := c.optional;
    OptionalStoredAt(blob, o - 24, c.machine, c.sectionCount, CountAt(blob, o), o + c.optionalSize);
  }

  lemma OptionalStoredAt(blob: seq<Byte>, pe: nat, machine: nat, sectionCount: nat, count: nat, table: nat)
    requires 64 <= pe && pe + 94 <= count && count + 4 <= table && table + 40 * sectionCount <= |blob|
    requires count + 4 + 8 * U32At(blob, count) <= table
    requires U16At(blob, pe + 24) in {0x10B, 0x20B}
    ensures OptionalBytes(FieldsAt(blob, pe, machine, sectionCount, count, table)) == blob[pe + 24..table]
  {
    hide U16At, U32At, Le16, Le32, DirectoryBytes, RowsIn, DirectoriesIn, InARow;
    OptionalGlued(blob, pe + 24, count, table);
  }

  /** The stored fields and the bytes between them, put together again. */
  lemma OptionalGlued(blob: seq<Byte>, o: nat, count: nat, table: nat)
    requires o + 70 <= count && count + 4 <= |blob| && count + 4 + 8 * U32At(blob, count) <= table <= |blob|
    ensures
      var n := U32At(blob, count);
      InARow(
        Le16(U16At(blob, o)), blob[o + 2..o + 36], Le32(U32At(blob, o + 36)), blob[o + 40..o + 60],
        Le32(U32At(blob, o + 60)), blob[o + 64..o + 68], Le16(U16At(blob, o + 68)), blob[o + 70..count],
        Le32(n), DirectoryBytes(DirectoriesIn(blob, count + 4, n)), blob[count + 4 + 8 * n..table])
      == blob[o..table]
  {
    hide U16At, U32At, Le16, Le32, DirectoryBytes, DirectoriesIn;
    var n := U32At(blob, count);
    StoredLe16(blob, o);
    StoredLe32(blob, o + 36);
    StoredLe32(blob, o + 60);
    StoredLe16(blob, o + 68);
    StoredLe32(blob, count);
    DirectoriesAreStored(blob, count + 4, n);
    Glue(blob, o, o + 2, o + 36);
    Glue(blob, o, o + 36, o + 40);
    Glue(blob, o, o + 40, o + 60);
    Glue(blob, o, o + 60, o + 64);
    Glue(blob, o, o + 64, o + 68);
    Glue(blob, o, o + 68, o + 70);
    Glue(blob, o, o + 70, count);
    Glue(blob, o, count, count + 4);
    Glue(blob, o, count + 4, count + 4 + 8 * n);
    Glue(blob, o, count + 4 + 8 * n, table);
  }

  lemma DosStored(blob: seq<Byte>, f: Fields, pe: nat)
    requires 64 <= pe <= |blob| && U32At(blob, 60) == pe && blob[0..2] == [0x4D, 0x5A]
    requires f.dos == blob[2..60] && f.stub == blob[64..pe]
    ensures DosBytes(f) == blob[0..pe]
  {
    hide U32At, Le32;
    StoredLe32(blob, 60);
    Glue(blob, 0, 2, 60);
    Glue(blob, 0, 60, 64);
    Glue(blob, 0, 64, pe);
  }

  lemma CoffStored(blob: seq<Byte>, f: Fields, pe: nat)
    requires pe + 24 <= |blob| && blob[pe..pe + 4] == [0x50, 0x45, 0, 0]
    requires f.machine == U16At(blob, pe + 4) && |f.sections| == U16At(blob, pe + 6)
    requires |OptionalBytes(f)| == U16At(blob, pe + 20)
    requires f.symbols == blob[pe + 8..pe + 20] && f.characteristics == blob[pe + 22..pe + 24]
    ensures CoffBytes(f) == blob[pe..pe + 24]
  {
    hide U16At, Le16, OptionalBytes;
    StoredLe16(blob, pe + 4);
    StoredLe16(blob, pe + 6);
    StoredLe16(blob, pe + 20);
    Glue(blob, pe, pe + 4, pe + 6);
    Glue(blob, pe, pe + 6, pe + 8);
    Glue(blob, pe, pe + 8, pe + 20);
    Glue(blob, pe, pe + 20, pe + 22);
    Glue(blob, pe, pe + 22, pe + 24);
  }

  lemma HeadersStored(blob: seq<Byte>)
    requires ParseCoff(blob).Success? && Checked(blob, ParseCoff(blob).value)
    ensures
      var (c, pe) := (ParseCoff(blob).value, U32At(blob, 60));
      && 64 <= pe && c.optional == pe + 24 <= |blob|
      && DosBytes(FieldsOf(blob)) == blob[0..pe] && CoffBytes(FieldsOf(blob)) == blob[pe..c.optional]
  {
    hide ParseCoff, U16At, U32At, OptionalBytes, DosBytes, CoffBytes, AcceptedAlignment, CheckedTable, RowsIn,
         DirectoriesIn;
    CoffAccepted(blob);
    OptionalStored(blob, ParseCoff(blob).value);
    var f, pe := FieldsOf(blob), U32At(blob, 60);
    DosStored(blob, f, pe);
    CoffStored(blob, f, pe);
  }

  lemma FieldsAreLinked(blob: seq<Byte>)
    requires ParseCoff(blob).Success? && Checked(blob, ParseCoff(blob).value)
    ensures Linked(FieldsOf(blob), ParseCoff(blob).value.architecture)
    ensures
      var (c, f) := (ParseCoff(blob).value, FieldsOf(blob));
      OptionalStart(f) == c.optional && OptionalSize(f) == c.optionalSize && ImageSize(f) == |blob|
  {
    hide ParseCoff, U16At, U32At, OptionalBytes, DosBytes, CoffBytes, TableBytes, DirectoriesIn, RowsIn;
    CoffAccepted(blob);
    var c, f := ParseCoff(blob).value, FieldsOf(blob);
    MachineTable(f.machine, c.architecture, f.wide);
    PowerOfTwoTest(f.fileAlignment);
    if |f.directories| > 4 {
      DirectoryIn(blob, CountAt(blob, c.optional) + 4, |f.directories|, 4);
    }
  }

  /** An accepted image is what a linker writes from the fields in it. */
  lemma ParsedIsWritten(blob: seq<Byte>)
    requires ParseHeader(blob).Success?
    ensures ParseCoff(blob).Success? && Checked(blob, ParseCoff(blob).value)
    ensures Linked(FieldsOf(blob), ParseHeader(blob).value.architecture) && Image(FieldsOf(blob)) == blob
  {
    hide ParseHeader, ParseCoff, U16At, U32At, Le16, Le32, OptionalBytes, DosBytes, CoffBytes, TableBytes,
         AcceptedAlignment, DirectoriesIn, RowsIn;
    ParserFacts(blob);
    FieldsAreLinked(blob);
    OptionalStored(blob, ParseCoff(blob).value);
    HeadersStored(blob);
    var (c, pe) := (ParseCoff(blob).value, U32At(blob, 60));
    var table := c.optional + c.optionalSize;
    RowsAreStored(blob, table, c.sectionCount);
    Glue(blob, 0, pe, c.optional);
    Glue(blob, 0, c.optional, table);
    Glue(blob, 0, table, table + 40 * c.sectionCount);
    Glue(blob, 0, table + 40 * c.sectionCount, |blob|);
  }

  /** The parser accepts exactly the images linkers write, and reads each of their fields. */
  lemma ParsesExactlyTheWritten(blob: seq<Byte>)
    ensures ParseHeader(blob).Success? <==>
            exists f: Fields, architecture: Architecture :: Linked(f, architecture) && Image(f) == blob
    ensures forall f: Fields, architecture: Architecture | Linked(f, architecture) && Image(f) == blob ::
              ParseHeader(blob) == Success(HeaderFor(f, architecture))
  {
    hide ParseHeader, Image, HeaderFor, Machine, PowerOfTwo;
    if ParseHeader(blob).Success? {
      ParsedIsWritten(blob);
    }
    forall f: Fields, architecture: Architecture | Linked(f, architecture) && Image(f) == blob
      ensures ParseHeader(blob) == Success(HeaderFor(f, architecture))
    {
      WrittenIsParsed(f, architecture);
    }
  }
}
