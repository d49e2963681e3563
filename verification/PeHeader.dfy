/** The header parser of isopropyl/dbx.py: every check made before any byte is hashed. */
module PeHeader {
  import opened Wrappers
  import opened Bytes
  import opened Alignment

  const MAX_PE_BYTES: nat := 268435456
  const MAX_SECTIONS: nat := 96

  datatype PeError =
    | TooLarge
    | NoMzHeader
    | OutOfBounds
    | NoPeSignature
    | UnsupportedMachine
    | TooManySections
    | OptionalHeaderTooShort
    | UnsupportedMagic
    | MachineMagicMismatch
    | NoDirectoryCount
    | HeadersTooSmall
    | DirectoryCountTooLarge
    | SecurityDirectoryOutsideHeaders
    | CertificateHalfPresent
    | CertificateMisaligned
    | CertificateInHeaders
    | BadFileAlignment
    | SectionInHeaders
    | SectionsOverlap
    | CertificateOverlapsSections
    | CertificateNotTerminal
    | HashRangeOutside
    | CertificateBeforeHeaderEnd
    | SectionsExceedImage
    | AlignedSizeOverflow
    | AlignedSectionsOverlap
    | AlignedSectionsExceedImage
    | DivergentDigests

  datatype Architecture = X64 | Ia32 | Arm | Aarch64

  datatype Header = Header(
    machine: nat,
    architecture: Architecture,
    subsystem: nat,
    checksumOffset: nat,
    sectionTable: nat,
    sectionCount: nat,
    sizeOfHeaders: nat,
    securityDirectory: Option<nat>,
    securityOffset: nat,
    securitySize: nat,
    fileAlignment: nat)
  {
    /** What every header that passes the parser's checks satisfies, for an image of `n` bytes. */
    ghost predicate Valid(n: nat) {
      && 68 <= checksumOffset
      && checksumOffset + 4 <= sectionTable
      && sectionTable + 40 * sectionCount <= sizeOfHeaders <= n <= MAX_PE_BYTES
      && sectionCount <= MAX_SECTIONS
      && AcceptedAlignment(fileAlignment)
      && (securityDirectory.Some? ==>
            checksumOffset + 4 <= securityDirectory.value && securityDirectory.value + 8 <= sectionTable)
      && (securityDirectory.None? ==> securitySize == 0)
      && (securitySize == 0 <==> securityOffset == 0)
      && (securitySize > 0 ==>
            securityOffset % 8 == 0 && sizeOfHeaders <= securityOffset && securityOffset + securitySize <= n)
    }
  }

  datatype Section = Section(rawOffset: nat, rawSize: nat) {
    function End(): nat { rawOffset + rawSize }
  }

  /** A read whose place is not yet known to lie inside the image; later reads use `U16At` and `U32At`,
      whose preconditions show that the same bounds check cannot fail there. */
  function Slice(blob: seq<Byte>, offset: nat, length: nat): Result<seq<Byte>, PeError> {
    if offset <= |blob| && length <= |blob| - offset then Success(blob[offset..offset + length])
    else Failure(OutOfBounds)
  }

  function U16(blob: seq<Byte>, offset: nat): Result<nat, PeError> {
    var field :- Slice(blob, offset, 2);
    Success(U16At(field, 0))
  }

  function ArchitectureOf(machine: nat): Option<Architecture> {
    if machine == 0x014C then Some(Ia32)
    else if machine == 0x01C0 || machine == 0x01C2 || machine == 0x01C4 then Some(Arm)
    else if machine == 0x8664 then Some(X64)
    else if machine == 0xAA64 then Some(Aarch64)
    else None
  }

  function DirectoriesThatFit(optionalSize: nat, directoriesOffset: nat): nat {
    if optionalSize < directoriesOffset then 0 else (optionalSize - directoriesOffset) / 8
  }

  /** The fields found before the optional header's own, with the placement they give to the rest. */
  datatype Coff = Coff(machine: nat, architecture: Architecture, sectionCount: nat, optional: nat, optionalSize: nat)

  function ParseCoff(blob: seq<Byte>): (r: Result<Coff, PeError>)
    ensures r.Success? ==>
      var c := r.value;
      88 <= c.optional && c.optional + c.optionalSize <= |blob| <= MAX_PE_BYTES && c.sectionCount <= MAX_SECTIONS
  {
    var size := |blob|;
    :- Need(size <= MAX_PE_BYTES, TooLarge);
    :- Need(size >= 64 && blob[..2] == [0x4D, 0x5A], NoMzHeader);
    var peOffset := U32At(blob, 0x3C);
    :- Need(peOffset >= 64, NoPeSignature);
    var signature :- Slice(blob, peOffset, 4);
    :- Need(signature == [0x50, 0x45, 0, 0], NoPeSignature);
    var coff := peOffset + 4;
    var machine :- U16(blob, coff);
    var architecture := ArchitectureOf(machine);
    :- Need(architecture.Some?, UnsupportedMachine);
    var sectionCount :- U16(blob, coff + 2);
    var optionalSize :- U16(blob, coff + 16);
    :- Need(sectionCount <= MAX_SECTIONS, TooManySections);
    var optional := coff + 20;
    var _ :- Slice(blob, optional, optionalSize);
    Success(Coff(machine, architecture.value, sectionCount, optional, optionalSize))
  }

  function ExpectedMagic(a: Architecture): nat {
    if a.X64? || a.Aarch64? then 0x20B else 0x10B
  }

  /** `file_alignment and not file_alignment & (file_alignment - 1)`. */
  predicate AcceptedAlignment(n: nat) {
    n != 0 && BitAnd(n, n - 1) == 0
  }

  function ParseHeader(blob: seq<Byte>): (r: Result<Header, PeError>)
    ensures r.Success? ==> r.value.Valid(|blob|)
  {
    var c :- ParseCoff(blob);
    :- Need(c.optionalSize >= 70, OptionalHeaderTooShort);
    var magic := U16At(blob, c.optional);
    :- Need(magic == 0x10B || magic == 0x20B, UnsupportedMagic);
    var directoryCountOffset := if magic == 0x10B then 92 else 108;
    var directoriesOffset := if magic == 0x10B then 96 else 112;
    :- Need(magic == ExpectedMagic(c.architecture), MachineMagicMismatch);
    var subsystem := U16At(blob, c.optional + 68);
    :- Need(c.optionalSize >= directoryCountOffset + 4, NoDirectoryCount);
    var sizeOfHeaders := U32At(blob, c.optional + 60);
    var checksumOffset := c.optional + 64;
    var sectionTable := c.optional + c.optionalSize;
    :- Need(sectionTable + c.sectionCount * 40 <= sizeOfHeaders <= |blob| && checksumOffset + 4 <= sizeOfHeaders,
            HeadersTooSmall);
    var directoryCount := U32At(blob, c.optional + directoryCountOffset);
    :- Need(directoryCount <= DirectoriesThatFit(c.optionalSize, directoriesOffset), DirectoryCountTooLarge);
    var entry := c.optional + directoriesOffset + 4 * 8;
    var certificate :- ParseSecurityDirectory(blob, entry, directoryCount > 4, sizeOfHeaders);
    var fileAlignment := U32At(blob, c.optional + 36);
    :- Need(AcceptedAlignment(fileAlignment), BadFileAlignment);
    Success(Header(
      c.machine, c.architecture, subsystem, checksumOffset, sectionTable, c.sectionCount, sizeOfHeaders,
      if directoryCount > 4 then Some(entry) else None, certificate.0, certificate.1, fileAlignment))
  }

  /** The certificate table's offset and size, (0, 0) when the image has none. */
  function ParseSecurityDirectory(blob: seq<Byte>, entry: nat, present: bool, sizeOfHeaders: nat)
    : (r: Result<(nat, nat), PeError>)
    requires sizeOfHeaders <= |blob|
    ensures r.Success? ==>
      var (offset, size) := r.value;
      && (offset == 0 <==> size == 0)
      && (size > 0 ==> present && offset % 8 == 0 && sizeOfHeaders <= offset && offset + size <= |blob|)
  {
    if !present then Success((0, 0))
    else
      :- Need(entry + 8 <= sizeOfHeaders, SecurityDirectoryOutsideHeaders);
      var offset := U32At(blob, entry);
      var size := U32At(blob, entry + 4);
      :- Need((offset != 0) == (size != 0), CertificateHalfPresent);
      if size == 0 then Success((offset, size))
      else
        :- Need(offset % 8 == 0, CertificateMisaligned);
        var _ :- Slice(blob, offset, size);
        :- Need(offset >= sizeOfHeaders, CertificateInHeaders);
        Success((offset, size))
  }

  /** Entry `index` of the section table. */
  function SectionAt(blob: seq<Byte>, h: Header, index: nat): Section
    requires h.Valid(|blob|) && index < h.sectionCount
  {
    var entry := h.sectionTable + index * 40;
    Section(U32At(blob, entry + 20), U32At(blob, entry + 16))
  }

  /** The sections with raw data among the first `count`, in table order. */
  function RawSections(blob: seq<Byte>, h: Header, count: nat): (s: seq<Section>)
    requires h.Valid(|blob|) && count <= h.sectionCount
    ensures forall i :: 0 <= i < |s| ==> s[i].rawSize > 0
  {
    if count == 0 then []
    else
      var section := SectionAt(blob, h, count - 1);
      RawSections(blob, h, count - 1) + if section.rawSize == 0 then [] else [section]
  }

  predicate SortedByOffset(s: seq<Section>) {
    forall i, j :: 0 <= i < j < |s| ==> s[i].rawOffset <= s[j].rawOffset
  }

  /** Stable: an element goes after those with an equal offset. */
  function Insert(s: seq<Section>, x: Section): (r: seq<Section>)
    requires SortedByOffset(s)
    ensures SortedByOffset(r) && multiset(r) == multiset(s) + multiset{x}
    ensures forall y :: y in r <==> y == x || y in s
  {
    if s == [] then [x]
    else if s[|s| - 1].rawOffset <= x.rawOffset then s + [x]
    else
      var front, last := s[..|s| - 1], s[|s| - 1];
      assert s == front + [last];
      var r := Insert(front, x);
      assert forall i :: 0 <= i < |r| ==> r[i].rawOffset <= last.rawOffset by {
        InsertedBelow(front, x, r, last);
      }
      r + [last]
  }

  lemma InsertedBelow(front: seq<Section>, x: Section, r: seq<Section>, last: Section)
    requires forall i :: 0 <= i < |front| ==> front[i].rawOffset <= last.rawOffset
    requires x.rawOffset <= last.rawOffset
    requires forall y :: y in r <==> y == x || y in front
    ensures forall i :: 0 <= i < |r| ==> r[i].rawOffset <= last.rawOffset
  {
    forall i | 0 <= i < |r| ensures r[i].rawOffset <= last.rawOffset {
      assert r[i] in r;
    }
  }

  /** What `sections.sort(key=offset)` leaves in the list. */
  function SortByOffset(s: seq<Section>): (r: seq<Section>)
    ensures SortedByOffset(r) && multiset(r) == multiset(s)
    ensures forall y :: y in r <==> y in s
  {
    if s == [] then []
    else
      assert s == s[..|s| - 1] + [s[|s| - 1]];
      Insert(SortByOffset(s[..|s| - 1]), s[|s| - 1])
  }

  function Sections(blob: seq<Byte>, h: Header): (s: seq<Section>)
    requires h.Valid(|blob|)
    ensures SortedByOffset(s) && forall i :: 0 <= i < |s| ==> s[i].rawSize > 0
  {
    var raw := RawSections(blob, h, h.sectionCount);
    var sorted := SortByOffset(raw);
    assert forall i :: 0 <= i < |sorted| ==> sorted[i] in raw;
    sorted
  }
}
