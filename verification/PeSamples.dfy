/** Concrete images: the theorems about accepted, gapped, signed and worker-checked images are about something. */
module PeSamples {
  import opened Wrappers
  import opened Bytes
  import opened Alignment
  import opened PeHeader
  import opened PeStreams
  import opened PeDigest
  import opened PeInvariance
  import opened PeSigning
  import opened SignatureWorker

  const SIZE: nat := 280
  const HEADERS: nat := 264

  /** A 32-bit UEFI application with one section of 8 bytes, whose place is given, and an empty security directory. */
  function SampleByte(i: nat, offset: Byte): Byte {
    match i
    case 0 => 0x4D
    case 1 => 0x5A
    case 0x3C => 64                  // PE header
    case 64 => 0x50
    case 65 => 0x45
    case 68 => 0x4C                  // machine
    case 69 => 0x01
    case 70 => 1                     // sections
    case 84 => 136                   // optional header
    case 88 => 0x0B
    case 89 => 0x01
    case 124 => 1                    // FileAlignment
    case 148 => 8                    // SizeOfHeaders
    case 149 => 1
    case 156 => 10                   // subsystem
    case 180 => 5                    // directories
    case 240 => 8                    // raw size
    case 244 => offset               // raw offset
    case 245 => 1
    case _ => 0
  }

  /** The section starts at 256 plus `offset`. */
  function Sample(offset: Byte): (blob: seq<Byte>)
    ensures |blob| == SIZE && forall i :: 0 <= i < SIZE ==> blob[i] == SampleByte(i, offset)
  {
    seq(SIZE, i requires 0 <= i => SampleByte(i, offset))
  }

  const HEADER: Header := Header(0x014C, Ia32, 10, 152, 224, 1, HEADERS, Some(216), 0, 0, 1)

  lemma Read16(blob: seq<Byte>, o: nat)
    requires o + 2 <= |blob|
    ensures U16(blob, o) == Success(U16At(blob, o))
  {
  }

  lemma SampleCoff(offset: Byte)
    ensures ParseCoff(Sample(offset)) == Success(Coff(0x014C, Ia32, 1, 88, 136))
  {
    var blob := Sample(offset);
    assert blob[..2] == [0x4D, 0x5A];
    assert U32At(blob, 0x3C) == 64;
    assert blob[64..68] == [0x50, 0x45, 0, 0];
    Read16(blob, 68);
    Read16(blob, 70);
    Read16(blob, 84);
    assert U16At(blob, 68) == 0x014C && U16At(blob, 70) == 1 && U16At(blob, 84) == 136;
  }

  lemma SampleParses(offset: Byte)
    ensures ParseHeader(Sample(offset)) == Success(HEADER)
  {
    SampleCoff(offset);
    hide ParseCoff;
    assert AcceptedAlignment(1);
  }

  lemma SampleSections(offset: Byte)
    ensures HEADER.Valid(SIZE)
    ensures Sections(Sample(offset), HEADER) == [Section(256 + offset as nat, 8)]
  {
    var blob := Sample(offset);
    SampleParses(offset);
    assert SectionAt(blob, HEADER, 0) == Section(256 + offset as nat, 8);
    assert RawSections(blob, HEADER, 0) == [];
    assert RawSections(blob, HEADER, 1) == [Section(256 + offset as nat, 8)];
    assert SortByOffset([]) == [];
  }

  lemma OneSection(section: Section)
    ensures Aligned([section], 1) == [section] && Total([section]) == section.rawSize
  {
    PowerOfTwoTest(1);
    AlignUpValue(section.rawSize, 1);
    assert [section][..0] == [];
    assert Aligned([], 1) == [];
    assert Total([]) == 0;
  }

  /** Both samples have the structure the digests need; the first has no gap, the second has one of 8 bytes. */
  lemma SampleStructure(section: Section)
    requires section.rawSize == 8 && (section.rawOffset == 264 || section.rawOffset == 272)
    ensures Structural(HEADER, [section], SIZE) && RoundedFits(HEADER, [section], SIZE)
    ensures Gapless([section], HEADERS) <==> section.rawOffset == 264
  {
    assert AcceptedAlignment(1);
    OneSection(section);
    hide Aligned, Total, AlignUp, BitAnd;
    assert StopBefore([section], 0, HEADERS) == HEADERS;
  }

  lemma AcceptedImageExists(sha: seq<Byte> -> string)
    ensures Accepted(Sample(8), sha) && HeaderOf(Sample(8)) == HEADER
  {
    SampleParses(8);
    SampleSections(8);
    SampleStructure(Section(264, 8));
    GaplessIsAccepted(Sample(8), sha);
  }

  /** A file with a gap on which the layouts differ, so that a hash function telling them apart rejects it. */
  lemma DivergentImageExists() returns (blob: seq<Byte>)
    ensures ParseHeader(blob) == Success(HEADER)
    ensures Structural(HEADER, Sections(blob, HEADER), |blob|) && RoundedFits(HEADER, Sections(blob, HEADER), |blob|)
    ensures !LayoutsAgree(blob, HEADER, Sections(blob, HEADER))
  {
    hide ParseHeader, Sections, Sample, Structural, RoundedFits;
    SampleParses(16);
    SampleSections(16);
    SampleStructure(Section(272, 8));
    blob := GapCanDiverge(Sample(16), HEADER, [Section(272, 8)]);
  }

  /** One certificate entry of 16 bytes. */
  function Table(): (t: seq<Byte>)
    ensures |t| == 16 && U32At(t, 0) == 16 && U16At(t, 4) == 0x0200 && U16At(t, 6) == 0x0002
  {
    [16, 0, 0, 0, 0, 2, 2, 0] + Zeros(8)
  }

  const ENTRY: EntryFacts := EntryFacts(SIZE, 16, 0x0200, 0x0002)

  const SIGNED: Header := SignedHeader(HEADER, SIZE, 16)

  /** The signed sample: accepted with the hash of the unsigned one, accepted by the worker, and strippable. */
  lemma SignedImageExists(sha: seq<Byte> -> string) returns (signed: seq<Byte>)
    ensures |signed| == SIZE + 16 && SIGNED.Valid(|signed|) && ParseHeader(signed) == Success(SIGNED)
    ensures Accepted(signed, sha) && Accepted(Sample(8), sha)
    ensures ImageHash(signed, sha) == ImageHash(Sample(8), sha)
    ensures Stripped(signed, SIGNED) == Sample(8)
    ensures ValidateBoundStructure(File(signed, true), |signed|, SIZE, 16, 16, 0x0200, 0x0002).Success?
  {
    hide ParseHeader, Accepted, Rewritten, Stripped, ImageHash, ValidateBoundStructure, Sample, Le32;
    AcceptedImageExists(sha);
    SampleParses(8);
    var blob := Sample(8);
    var checksum, entry := blob[152..156], Le32(SIZE) + Le32(16);
    SigningKeepsTheHash(blob, checksum, Table(), sha);
    signed := Signed(blob, HEADER, checksum, Table());
    StrippingUndoesSigning(blob, HEADER, Table());
    RewrittenAt(blob, HEADER, checksum, entry, SIZE, Table());
    ParsersAgree(signed, SIGNED, |signed|, SIZE, 16, ENTRY);
  }

  // ----- a signed image whose rounded section reaches into its certificate table

  /** The second sample with FileAlignment 16 and a table of 16 zero bytes at its end. */
  function ReachingByte(i: nat): Byte {
    match i
    case 124 => 16
    case 216 => 24                   // the table starts at 280
    case 217 => 1
    case 220 => 16
    case _ => if i < SIZE then SampleByte(i, 16) else 0
  }

  function Reaching(): (blob: seq<Byte>)
    ensures |blob| == SIZE + 16 && forall i :: 0 <= i < SIZE + 16 ==> blob[i] == ReachingByte(i)
  {
    seq(SIZE + 16, i requires 0 <= i => ReachingByte(i))
  }

  const REACHING: Header := HEADER.(securityOffset := SIZE, securitySize := 16, fileAlignment := 16)

  const LAST: Section := Section(272, 8)

  lemma SixteenIsAccepted()
    ensures AcceptedAlignment(16) && AlignUp(8, 16) == 16
  {
    assert PowerOfTwo(4) && PowerOfTwo(16);
    PowerOfTwoTest(16);
    AlignUpValue(8, 16);
  }

  lemma ReachingCoff()
    ensures ParseCoff(Reaching()) == Success(Coff(0x014C, Ia32, 1, 88, 136))
  {
    var blob := Reaching();
    assert blob[..2] == [0x4D, 0x5A];
    assert U32At(blob, 0x3C) == 64;
    assert blob[64..68] == [0x50, 0x45, 0, 0];
    Read16(blob, 68);
    Read16(blob, 70);
    Read16(blob, 84);
    assert U16At(blob, 68) == 0x014C && U16At(blob, 70) == 1 && U16At(blob, 84) == 136;
  }

  lemma ReachingFields()
    ensures
      var blob := Reaching();
      U16At(blob, 88) == 0x10B && U16At(blob, 156) == 10 && U32At(blob, 148) == HEADERS && U32At(blob, 180) == 5
  {
  }

  lemma ReachingTable()
    ensures
      var blob := Reaching();
      U32At(blob, 124) == 16 && U32At(blob, 216) == SIZE && U32At(blob, 220) == 16
  {
  }

  lemma ReachingParses()
    ensures ParseHeader(Reaching()) == Success(REACHING) && REACHING.Valid(SIZE + 16)
  {
    hide ParseCoff, BitAnd, AlignUp, AcceptedAlignment, Reaching, U16At, U32At;
    ReachingCoff();
    ReachingFields();
    ReachingTable();
    SixteenIsAccepted();
  }

  lemma ReachingSections()
    ensures REACHING.Valid(SIZE + 16) && Sections(Reaching(), REACHING) == [LAST]
  {
    var blob := Reaching();
    ReachingParses();
    assert SectionAt(blob, REACHING, 0) == LAST;
    assert RawSections(blob, REACHING, 0) == [];
    assert RawSections(blob, REACHING, 1) == [LAST];
    assert SortByOffset([]) == [];
  }

  lemma ReachingStructure()
    ensures Structural(REACHING, [LAST], SIZE + 16) && RoundedFits(REACHING, [LAST], SIZE + 16)
    ensures Aligned([LAST], 16) == [Section(272, 16)] && Total([LAST]) == 8 && Total([Section(272, 16)]) == 16
    ensures !RoundedBeforeCertificate(REACHING, [LAST], SIZE + 16)
  {
    ReachingParses();
    SixteenIsAccepted();
    assert [LAST][..0] == [] && Aligned([], 16) == [];
    OneTotal(LAST);
    OneTotal(Section(272, 16));
    assert Aligned([LAST], 16)[0].End() == 288;
  }

  lemma OneTotal(section: Section)
    ensures Total([section]) == section.rawSize
  {
    assert [section][..0] == [] && Total([]) == 0;
  }

  lemma OneBody(blob: seq<Byte>, t: Section)
    requires t.End() <= |blob|
    ensures Body(blob, [t]) == blob[t.rawOffset..t.End()]
  {
    assert [t][..0] == [] && Body(blob, []) == [];
  }

  /** All that is hashed after the headers is zero, so the layouts agree although they read different places. */
  lemma ReachingStreams(t: Section)
    requires t == LAST || t == Section(272, 16)
    ensures REACHING.Valid(SIZE + 16) && HEADERS + Total([t]) <= SIZE
    ensures SectionedStream(Reaching(), REACHING, [t]) == CatalogStream(Reaching(), REACHING)
  {
    hide ParseHeader, Reaching, CatalogStream, SectionedStream, HeaderPart, AcceptedAlignment, Total, Body;
    var blob := Reaching();
    ReachingParses();
    OneTotal(t);
    CatalogSplit(blob, REACHING);
    SectionedParts(blob, REACHING, [t]);
    OneBody(blob, t);
    assert blob[t.rawOffset..t.End()] + blob[HEADERS + t.rawSize..SIZE] == blob[HEADERS..SIZE];
    SameRest(HeaderPart(blob, REACHING), blob[t.rawOffset..t.End()], blob[HEADERS + t.rawSize..SIZE]);
  }

  /** An accepted signed image that is not accepted any more once its signature is stripped. */
  lemma StrippingCanLoseAcceptance(sha: seq<Byte> -> string)
    ensures Accepted(Reaching(), sha) && REACHING.Valid(|Reaching()|)
    ensures !Accepted(Stripped(Reaching(), REACHING), sha)
  {
    hide ParseHeader, Sections, Structural, RoundedFits, Aligned, RoundedBeforeCertificate, SectionedStream,
         CatalogStream, Stripped;
    ReachingParses();
    ReachingSections();
    ReachingStructure();
    StructuralFits(REACHING, [LAST], SIZE + 16);
    ReachingStreams(LAST);
    ReachingStreams(Section(272, 16));
    assert Accepted(Reaching(), sha);
    StrippingKeepsTheHash(Reaching(), sha);
  }
}
