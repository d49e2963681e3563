/**
 The two other readers of the certificate table: the sandboxed worker of isopropyl/authenticode_worker.py, which
 parses the PE headers a second time, and the parent's preflight in isopropyl/authenticode.py.
 */
module SignatureWorker {
  import opened Wrappers
  import opened Bytes
  import opened Alignment
  import opened PeHeader
  import opened PeStreams

  const MAX_PE_SIZE: nat := 268435456
  const MAX_PKCS7_SIZE: nat := 8388608

  datatype Refusal = Malformed | Unsupported

  /** What the worker's inherited descriptor refers to. */
  datatype BoundFile = Unavailable | File(contents: seq<Byte>, regular: bool)

  datatype EntryFacts = EntryFacts(fileOffset: nat, length: nat, revision: nat, certificateType: nat)

  datatype TableFacts = TableFacts(fileOffset: nat, size: nat, entries: seq<EntryFacts>)

  /** `os.pread` followed by the length check. */
  function PreadExact(blob: seq<Byte>, length: nat, offset: nat): (r: Result<seq<Byte>, Refusal>)
    ensures r.Success? ==> |r.value| == length
  {
    if offset + length <= |blob| then Success(blob[offset..offset + length])
    else if length == 0 then Success([])
    else Failure(Malformed)
  }

  function ReadU16(blob: seq<Byte>, offset: nat): Result<nat, Refusal> {
    var field :- PreadExact(blob, 2, offset);
    Success(U16At(field, 0))
  }

  function ReadU32(blob: seq<Byte>, offset: nat): Result<nat, Refusal> {
    var field :- PreadExact(blob, 4, offset);
    Success(U32At(field, 0))
  }

  function Align8(n: nat): nat {
    AlignUp(n, 8)
  }

  lemma Align8Bounds(n: nat)
    ensures n <= Align8(n) < n + 8
  {
    AlignUpIsLeast(n, 8);
  }

  /** The security directory's two fields, found by the worker's own walk through the headers. */
  function BoundDirectory(blob: seq<Byte>): Result<(nat, nat), Refusal> {
    var mz :- PreadExact(blob, 2, 0);
    :- Need(mz == [0x4D, 0x5A], Malformed);
    var peOffset :- ReadU32(blob, 0x3C);
    :- Need(peOffset >= 64, Malformed);
    var signature :- PreadExact(blob, 4, peOffset);
    :- Need(signature == [0x50, 0x45, 0, 0], Malformed);
    var coff := peOffset + 4;
    var optionalSize :- ReadU16(blob, coff + 16);
    var optional := coff + 20;
    var magic :- ReadU16(blob, optional);
    :- Need(magic == 0x10B || magic == 0x20B, Unsupported);
    var directoryCountOffset := if magic == 0x10B then 92 else 108;
    var directoriesOffset := if magic == 0x10B then 96 else 112;
    :- Need(optionalSize >= directoryCountOffset + 4, Malformed);
    var directoryCount :- ReadU32(blob, optional + directoryCountOffset);
    :- Need(4 < directoryCount <= DirectoriesThatFit(optionalSize, directoriesOffset), Malformed);
    var entry := optional + directoriesOffset + 4 * 8;
    var offset :- ReadU32(blob, entry);
    var size :- ReadU32(blob, entry + 4);
    Success((offset, size))
  }

  /** The WIN_CERTIFICATE header and the alignment padding behind the entry. */
  function CheckCertificate(blob: seq<Byte>, tableOffset: nat, tableSize: nat, e: EntryFacts)
    : (r: Result<(), Refusal>)
  {
    var header :- PreadExact(blob, 8, tableOffset);
    :- Need(U32At(header, 0) == e.length && U16At(header, 4) == e.revision && U16At(header, 6) == e.certificateType,
            Malformed);
    if tableSize <= e.length then Success(())
    else
      var padding :- PreadExact(blob, tableSize - e.length, tableOffset + e.length);
      :- Need(padding == Zeros(tableSize - e.length), Malformed);
      Success(())
  }

  function ValidateBoundStructure(
    file: BoundFile, expectedSize: nat, tableOffset: nat, tableSize: nat, entryLength: nat, revision: nat,
    certificateType: nat): (r: Result<(), Refusal>)
  {
    if file.Unavailable? then Failure(Malformed)
    else
      var blob := file.contents;
      :- Need(file.regular && |blob| == expectedSize, Malformed);
      :- Need(0 < expectedSize <= MAX_PE_SIZE, Unsupported);
      :- Need(tableOffset % 8 == 0 && tableSize == Align8(entryLength), Malformed);
      :- Need(entryLength > 8 && entryLength - 8 <= MAX_PKCS7_SIZE, Unsupported);
      :- Need(tableOffset <= expectedSize && tableSize <= expectedSize - tableOffset, Malformed);
      :- Need(revision == 0x0200 && certificateType == 0x0002, Unsupported);
      var bound :- BoundDirectory(blob);
      :- Need(bound == (tableOffset, tableSize), Malformed);
      CheckCertificate(blob, tableOffset, tableSize, EntryFacts(tableOffset, entryLength, revision, certificateType))
  }

  /** The parent's check of the facts it is about to hand to a worker. */
  function Preflight(blob: seq<Byte>, facts: TableFacts): (r: Result<EntryFacts, Refusal>) {
    var n := |blob|;
    :- Need(n != 0, Malformed);
    :- Need(n <= MAX_PE_SIZE, Unsupported);
    if |facts.entries| != 1 then Failure(Unsupported)
    else
      var entry := facts.entries[0];
      :- Need(entry.revision == 0x0200 && entry.certificateType == 0x0002, Unsupported);
      :- Need(facts.fileOffset % 8 == 0 && entry.fileOffset == facts.fileOffset, Malformed);
      :- Need(entry.length > 8, Malformed);
      :- Need(facts.size == Align8(entry.length), Malformed);
      :- Need(facts.fileOffset <= n && facts.size <= n - facts.fileOffset, Malformed);
      :- Need(entry.length - 8 <= MAX_PKCS7_SIZE, Unsupported);
      Success(entry)
  }

  /** One complete PKCS#7 entry at `offset`: its header, its length, and the zero bytes after it. */
  ghost predicate SoleEntry(blob: seq<Byte>, offset: nat, size: nat, e: EntryFacts) {
    && e.fileOffset == offset && offset + size <= |blob|
    && e.revision == 0x0200 && e.certificateType == 0x0002
    && 8 < e.length <= size < e.length + 8 && size % 8 == 0
    && e.length <= MAX_PKCS7_SIZE + 8
    && U32At(blob, offset) == e.length && U16At(blob, offset + 4) == 0x0200 && U16At(blob, offset + 6) == 0x0002
    && forall p :: offset + e.length <= p < offset + size ==> blob[p] == 0
  }

  /** On an image whose headers the DBX parser accepts, the worker's walk finds the same directory entry. */
  lemma SameDirectory(blob: seq<Byte>, h: Header)
    requires ParseHeader(blob) == Success(h)
    ensures h.securityDirectory.Some? ==> BoundDirectory(blob) == Success((h.securityOffset, h.securitySize))
    ensures h.securityDirectory.None? ==> BoundDirectory(blob) == Failure(Malformed)
  {
    hide U16At, U32At, AcceptedAlignment, ArchitectureOf, ExpectedMagic;
    assert blob[..2] == blob[0..2];
    InRange32(blob, 0x3C);
    var c := ParseCoff(blob).value;
    InRange16(blob, c.optional);
    InRange32(blob, c.optional + if U16At(blob, c.optional) == 0x10B then 92 else 108);
    if h.securityDirectory.Some? {
      InRange32(blob, h.securityDirectory.value);
      InRange32(blob, h.securityDirectory.value + 4);
    }
  }

  lemma InRange16(blob: seq<Byte>, o: nat)
    requires o + 2 <= |blob|
    ensures ReadU16(blob, o) == Success(U16At(blob, o))
  {
  }

  lemma InRange32(blob: seq<Byte>, o: nat)
    requires o + 4 <= |blob|
    ensures ReadU32(blob, o) == Success(U32At(blob, o))
  {
  }

  lemma Multiple8(size: nat, length: nat)
    requires length <= size < length + 8
    ensures size % 8 == 0 <==> size == Align8(length)
  {
    hide *;
    Align8IsMultiple(length);
    Align8Bounds(length);
    OneMultiple(size, Align8(length), length);
  }

  lemma Align8IsMultiple(n: nat)
    ensures Align8(n) % 8 == 0
  {
    AlignUpIsLeast(n, 8);
  }

  lemma OneMultiple(a: nat, b: nat, n: nat)
    requires n <= a < n + 8 && n <= b < n + 8 && b % 8 == 0
    ensures a % 8 == 0 <==> a == b
  {
    var k := b / 8;
    assert b == 8 * k;
  }

  lemma CertificateChecked(blob: seq<Byte>, offset: nat, size: nat, e: EntryFacts)
    requires e.fileOffset == offset && offset + size <= |blob|
    requires e.revision == 0x0200 && e.certificateType == 0x0002
    requires 8 < e.length && size == Align8(e.length) && e.length <= MAX_PKCS7_SIZE + 8
    ensures CheckCertificate(blob, offset, size, e).Success? <==> SoleEntry(blob, offset, size, e)
  {
    Align8Bounds(e.length);
    Multiple8(size, e.length);
    hide AlignUp;
    var header := blob[offset..offset + 8];
    assert U32At(header, 0) == U32At(blob, offset);
    assert U16At(header, 4) == U16At(blob, offset + 4) && U16At(header, 6) == U16At(blob, offset + 6);
    var start, padding := offset + e.length, size - e.length;
    assert blob[start..start + padding] == Zeros(padding)
      <==> forall p :: start <= p < start + padding ==> blob[p] == 0
    by {
      if blob[start..start + padding] == Zeros(padding) {
        forall p | start <= p < start + padding ensures blob[p] == 0 {
          assert blob[p] == blob[start..start + padding][p - start];
        }
      }
    }
  }

  /**
   The parsers agree: on an image whose headers the DBX parser accepts, the worker accepts exactly the facts that
   repeat the certificate range left out of the DBX hash, filled by one entry up to fewer than eight zero bytes.
   */
  lemma ParsersAgree(blob: seq<Byte>, h: Header, expectedSize: nat, tableOffset: nat, tableSize: nat, e: EntryFacts)
    requires ParseHeader(blob) == Success(h) && e.fileOffset == tableOffset
    ensures
      ValidateBoundStructure(
        File(blob, true), expectedSize, tableOffset, tableSize, e.length, e.revision, e.certificateType).Success?
      <==>
      && expectedSize == |blob|
      && h.securitySize > 0
      && (tableOffset, tableSize) == (h.securityOffset, h.securitySize)
      && SoleEntry(blob, tableOffset, tableSize, e)
  {
    hide ParseHeader, BoundDirectory, CheckCertificate, AlignUp, U32At, U16At;
    SameDirectory(blob, h);
    Align8Bounds(e.length);
    if tableOffset + tableSize <= |blob| && e.revision == 0x0200 && e.certificateType == 0x0002 && 8 < e.length
       && e.length <= MAX_PKCS7_SIZE + 8 {
      if e.length <= tableSize < e.length + 8 {
        Multiple8(tableSize, e.length);
      }
      if tableSize == Align8(e.length) {
        CertificateChecked(blob, tableOffset, tableSize, e);
      }
    }
  }

  /** The parent hands over exactly one complete PKCS#7 entry that fills an aligned table inside the file. */
  lemma PreflightAcceptsExactly(blob: seq<Byte>, facts: TableFacts)
    ensures Preflight(blob, facts).Success? <==>
      && 0 < |blob| <= MAX_PE_SIZE && |facts.entries| == 1
      && var e := facts.entries[0];
         && e.revision == 0x0200 && e.certificateType == 0x0002 && e.fileOffset == facts.fileOffset
         && 8 < e.length <= MAX_PKCS7_SIZE + 8 && e.length <= facts.size < e.length + 8
         && facts.size % 8 == 0 && facts.fileOffset % 8 == 0 && facts.fileOffset + facts.size <= |blob|
    ensures Preflight(blob, facts).Success? ==> facts.entries == [Preflight(blob, facts).value]
  {
    hide AlignUp;
    if |facts.entries| == 1 {
      var e := facts.entries[0];
      Align8Bounds(e.length);
      if e.length <= facts.size < e.length + 8 {
        Multiple8(facts.size, e.length);
      }
    }
  }

  /** Whatever a worker accepts, the parent's preflight accepts for a table with that one entry, and returns it. */
  lemma WorkerFactsPassPreflight(file: BoundFile, expectedSize: nat, tableOffset: nat, tableSize: nat, e: EntryFacts)
    requires ValidateBoundStructure(
      file, expectedSize, tableOffset, tableSize, e.length, e.revision, e.certificateType).Success?
    ensures file.File?
    ensures Preflight(file.contents, TableFacts(tableOffset, tableSize, [e])) ==
      if e.fileOffset == tableOffset then Success(e) else Failure(Malformed)
  {
  }
}
