/** `pe_authenticode_sha256` of isopropyl/dbx.py: three layouts are hashed and must agree. */
module PeDigest {
  import opened Wrappers
  import opened Bytes
  import opened Alignment
  import opened PeHeader
  import opened PeStreams

  const HASH_CHUNK_BYTES: nat := 1048576

  /** A running digest; `fed` is every byte given to `update` so far. */
  class RunningDigest {
    var fed: seq<Byte>

    constructor ()
      ensures fed == []
    {
      fed := [];
    }

    method Update(block: seq<Byte>)
      modifies this
      ensures fed == old(fed) + block
    {
      fed := fed + block;
    }
  }

  /** The caller's cancellation callback, which may raise whenever it is polled. */
  class CancelCheck {
    constructor () {}

    method Poll() returns (raised: bool) {
      raised := *;
    }
  }

  method Poll(cancel: CancelCheck?) returns (raised: bool)
    ensures raised ==> cancel != null
  {
    raised := false;
    if cancel != null {
      raised := cancel.Poll();
    }
  }

  datatype Step = Done | OutsideImage | Stopped {
    predicate IsFailure() {
      !Done?
    }

    function PropagateFailure(): Step {
      this
    }
  }

  datatype Outcome =
    | Digest(machine: nat, architecture: Architecture, sha256: string)
    | NonUefi
    | Error(error: PeError)
    | Cancelled

  /** `_hash_range`: feeds one range in chunks, polling for cancellation before each. */
  method HashRange(digest: RunningDigest, blob: seq<Byte>, start: int, end: int, cancel: CancelCheck?)
    returns (r: Step)
    modifies digest
    ensures r.OutsideImage? <==> !(0 <= start <= end <= |blob|)
    ensures r.Done? ==> digest.fed == old(digest.fed) + blob[start..end]
    ensures r.Stopped? ==> cancel != null
  {
    if start < 0 || end < start || end > |blob| {
      return OutsideImage;
    }
    var offset := start;
    while offset < end
      invariant start <= offset <= end + HASH_CHUNK_BYTES
      invariant digest.fed == old(digest.fed) + blob[start..if offset < end then offset else end]
    {
      var raised := Poll(cancel);
      if raised {
        return Stopped;
      }
      var stop := if end < offset + HASH_CHUNK_BYTES then end else offset + HASH_CHUNK_BYTES;
      digest.Update(blob[offset..stop]);
      SliceJoin(blob, start, offset, stop);
      offset := offset + HASH_CHUNK_BYTES;
    }
    return Done;
  }

  /** The section loop: collects the sections that have raw data, rejecting misplaced ones. */
  method ReadSections(blob: seq<Byte>, h: Header) returns (r: Result<seq<Section>, PeError>)
    requires h.Valid(|blob|)
    ensures r.Success? ==> r.value == RawSections(blob, h, h.sectionCount)
    ensures r.Success? <==>
      forall x :: x in RawSections(blob, h, h.sectionCount) ==> InFile(x, h.sizeOfHeaders, |blob|)
  {
    hide SectionAt, AcceptedAlignment;
    var sections := [];
    var index := 0;
    while index < h.sectionCount
      invariant 0 <= index <= h.sectionCount
      invariant sections == RawSections(blob, h, index)
      invariant forall x :: x in sections ==> InFile(x, h.sizeOfHeaders, |blob|)
    {
      var section := SectionAt(blob, h, index);
      RawSectionsNext(blob, h, index);
      if section.rawSize != 0 {
        if section.rawOffset < h.sizeOfHeaders {
          return Failure(SectionInHeaders);
        }
        if section.rawOffset > |blob| || section.rawSize > |blob| - section.rawOffset {
          return Failure(OutOfBounds);
        }
        sections := sections + [section];
      }
      index := index + 1;
    }
    return Success(sections);
  }

  lemma RawSectionsNext(blob: seq<Byte>, h: Header, index: nat)
    requires h.Valid(|blob|) && index < h.sectionCount
    ensures
      var section, before := SectionAt(blob, h, index), RawSections(blob, h, index);
      RawSections(blob, h, index + 1) == if section.rawSize == 0 then before else before + [section]
    ensures SectionAt(blob, h, index).rawSize != 0 ==>
      SectionAt(blob, h, index) in RawSections(blob, h, h.sectionCount)
  {
    RawSectionsGrow(blob, h, index + 1, h.sectionCount);
  }

  lemma {:induction false} RawSectionsGrow(blob: seq<Byte>, h: Header, a: nat, b: nat)
    requires h.Valid(|blob|) && a <= b <= h.sectionCount
    ensures forall x :: x in RawSections(blob, h, a) ==> x in RawSections(blob, h, b)
  {
    if a < b {
      RawSectionsGrow(blob, h, a, b - 1);
    }
  }

  /** The sweep over the sorted sections, and the placement of the certificate table. */
  method CheckPlacement(h: Header, s: seq<Section>, n: nat) returns (r: Check<PeError>)
    requires h.Valid(n) && SortedByOffset(s)
    requires forall i :: 0 <= i < |s| ==> s[i].rawSize > 0 && h.sizeOfHeaders <= s[i].rawOffset && s[i].End() <= n
    ensures r.Pass? <==> Structural(h, s, n)
  {
    ChainedIffLaid(s, h.sizeOfHeaders, n);
    var previousEnd := h.sizeOfHeaders;
    var i := 0;
    while i < |s|
      invariant 0 <= i <= |s|
      invariant previousEnd == LastEnd(s[..i], h.sizeOfHeaders)
      invariant forall a {:trigger StopBefore(s, a, h.sizeOfHeaders)} ::
        0 <= a < i ==> StopBefore(s, a, h.sizeOfHeaders) <= s[a].rawOffset
      invariant forall a :: 0 <= a < i ==> s[a].End() <= previousEnd
    {
      assert previousEnd == StopBefore(s, i, h.sizeOfHeaders);
      if s[i].rawOffset < previousEnd {
        return Fail(SectionsOverlap);
      }
      previousEnd := s[i].End();
      i := i + 1;
    }
    if h.securitySize > 0 {
      var k := 0;
      while k < |s|
        invariant 0 <= k <= |s|
        invariant forall a :: 0 <= a < k ==>
          !(s[a].rawOffset < h.securityOffset + h.securitySize && h.securityOffset < s[a].End())
      {
        if s[k].rawOffset < h.securityOffset + h.securitySize && h.securityOffset < s[k].End() {
          return Fail(CertificateOverlapsSections);
        }
        k := k + 1;
      }
      if h.securityOffset < previousEnd || h.securityOffset + h.securitySize != n {
        return Fail(CertificateNotTerminal);
      }
    }
    return Pass;
  }

  method HashCatalog(digest: RunningDigest, blob: seq<Byte>, h: Header, cancel: CancelCheck?) returns (r: Step)
    requires h.Valid(|blob|) && (h.securitySize > 0 ==> h.securityOffset + h.securitySize == |blob|)
    requires digest.fed == []
    modifies digest
    ensures r.Done? ==> digest.fed == CatalogStream(blob, h)
    ensures !r.OutsideImage? && (r.Stopped? ==> cancel != null)
  {
    hide CatalogStream, AcceptedAlignment;
    CatalogPieces(blob, h);
    r := HashRange(digest, blob, 0, h.checksumOffset, cancel);
    :- r;
    match h.securityDirectory {
    case None =>
      :- HashRange(digest, blob, h.checksumOffset + 4, |blob|, cancel);
    case Some(entry) =>
      :- HashRange(digest, blob, h.checksumOffset + 4, entry, cancel);
      r := HashAroundTable(digest, blob, h, entry, cancel);
    }
  }

  /** The catalog stream in the pieces that are fed. */
  lemma CatalogPieces(blob: seq<Byte>, h: Header)
    requires h.Valid(|blob|) && (h.securitySize > 0 ==> h.securityOffset + h.securitySize == |blob|)
    ensures
      var ck := h.checksumOffset;
      match h.securityDirectory
      case None => CatalogStream(blob, h) == [] + blob[0..ck] + blob[ck + 4..|blob|]
      case Some(entry) =>
        CatalogStream(blob, h) == [] + blob[0..ck] + blob[ck + 4..entry] +
          if h.securitySize > 0 then
            blob[entry + 8..h.securityOffset] + blob[h.securityOffset + h.securitySize..|blob|]
          else blob[entry + 8..|blob|]
  {
    hide AcceptedAlignment;
    if h.securityDirectory.Some? && h.securitySize > 0 {
      var entry := h.securityDirectory.value;
      SameRest(
        blob[0..h.checksumOffset] + blob[h.checksumOffset + 4..entry], blob[entry + 8..h.securityOffset],
        blob[h.securityOffset + h.securitySize..|blob|]);
    }
  }

  lemma SameRest<T>(head: seq<T>, a: seq<T>, b: seq<T>)
    ensures head + a + b == head + (a + b)
  {
  }

  /** What follows the directory entry, without the certificate table. */
  method HashAroundTable(digest: RunningDigest, blob: seq<Byte>, h: Header, entry: nat, cancel: CancelCheck?)
    returns (r: Step)
    requires h.Valid(|blob|) && h.securityDirectory == Some(entry)
    modifies digest
    ensures r.Done? ==>
      digest.fed == old(digest.fed) +
        if h.securitySize > 0 then
          blob[entry + 8..h.securityOffset] + blob[h.securityOffset + h.securitySize..|blob|]
        else blob[entry + 8..|blob|]
    ensures !r.OutsideImage? && (r.Stopped? ==> cancel != null)
  {
    if h.securitySize != 0 {
      assert h.securityOffset >= entry + 8;
      r := HashRange(digest, blob, entry + 8, h.securityOffset, cancel);
      if r.Done? {
        r := HashRange(digest, blob, h.securityOffset + h.securitySize, |blob|, cancel);
      }
    } else {
      r := HashRange(digest, blob, entry + 8, |blob|, cancel);
    }
  }

  method HashHeaders(digest: RunningDigest, blob: seq<Byte>, h: Header, cancel: CancelCheck?) returns (r: Step)
    requires h.Valid(|blob|) && digest.fed == []
    modifies digest
    ensures r.Done? ==> digest.fed == HeaderPart(blob, h)
    ensures !r.OutsideImage? && (r.Stopped? ==> cancel != null)
  {
    r := HashRange(digest, blob, 0, h.checksumOffset, cancel);
    :- r;
    match h.securityDirectory {
    case None =>
      :- HashRange(digest, blob, h.checksumOffset + 4, h.sizeOfHeaders, cancel);
    case Some(entry) =>
      :- HashRange(digest, blob, h.checksumOffset + 4, entry, cancel);
      :- HashRange(digest, blob, entry + 8, h.sizeOfHeaders, cancel);
    }
    return Done;
  }

  /** The UEFI/TianoCore layout. */
  method HashReference(digest: RunningDigest, blob: seq<Byte>, h: Header, s: seq<Section>, cancel: CancelCheck?)
    returns (r: Step)
    requires Structural(h, s, |blob|) && digest.fed == []
    modifies digest
    ensures h.sizeOfHeaders + Total(s) + h.securitySize <= |blob|
    ensures r.Done? ==> digest.fed == SectionedStream(blob, h, s)
    ensures !r.OutsideImage? && (r.Stopped? ==> cancel != null)
  {
    StructuralFits(h, s, |blob|);
    :- HashHeaders(digest, blob, h, cancel);
    var sum: nat;
    r, sum := HashSections(digest, blob, h, s, cancel);
    if r.Done? {
      assert |blob| >= sum + h.securitySize;
      r := HashRange(digest, blob, sum, |blob| - h.securitySize, cancel);
    }
  }

  method HashSections(digest: RunningDigest, blob: seq<Byte>, h: Header, s: seq<Section>, cancel: CancelCheck?)
    returns (r: Step, sum: nat)
    requires forall k :: 0 <= k < |s| ==> s[k].End() <= |blob|
    modifies digest
    ensures r.Done? ==> digest.fed == old(digest.fed) + Body(blob, s)
    ensures r.Done? ==> sum == h.sizeOfHeaders + Total(s)
    ensures !r.OutsideImage? && (r.Stopped? ==> cancel != null)
  {
    sum := h.sizeOfHeaders;
    var i := 0;
    while i < |s|
      invariant 0 <= i <= |s|
      invariant sum == h.sizeOfHeaders + Total(s[..i])
      invariant digest.fed == old(digest.fed) + Body(blob, s[..i])
    {
      assert s[i].End() <= |blob|;
      BodyNext(blob, s, i, old(digest.fed));
      :- HashRange(digest, blob, s[i].rawOffset, s[i].End(), cancel);
      sum := sum + s[i].rawSize;
      i := i + 1;
    }
    assert s[..i] == s;
    return Done, sum;
  }

  lemma BodyNext<T>(f: seq<T>, t: seq<Section>, i: nat, before: seq<T>)
    requires i < |t| && t[i].End() <= |f|
    requires forall x :: x in t[..i] ==> x.End() <= |f|
    ensures forall x :: x in t[..i + 1] ==> x.End() <= |f|
    ensures before + Body(f, t[..i + 1]) == before + Body(f, t[..i]) + f[t[i].rawOffset..t[i].End()]
    ensures Total(t[..i + 1]) == Total(t[..i]) + t[i].rawSize
  {
    var u := t[..i + 1];
    assert u[..i] == t[..i];
  }

  /** Rufus's layout: sections rounded up to FileAlignment, checked while they are hashed. */
  method HashRufus(digest: RunningDigest, blob: seq<Byte>, h: Header, s: seq<Section>, cancel: CancelCheck?)
    returns (r: Step, fits: Check<PeError>)
    requires h.Valid(|blob|) && digest.fed == []
    modifies digest
    ensures r.Done? ==> (fits.Pass? <==> RoundedTest(h, s, |blob|))
    ensures r.Done? && fits.Pass? ==> digest.fed == SectionedStream(blob, h, Aligned(s, h.fileAlignment))
    ensures !r.OutsideImage? && (r.Stopped? ==> cancel != null)
  {
    fits := Pass;
    :- HashHeaders(digest, blob, h, cancel);
    var sum: nat;
    r, fits, sum := HashRounded(digest, blob, h, s, cancel);
    if r.Done? && fits.Pass? {
      if |blob| < sum + h.securitySize {
        return Done, Fail(AlignedSectionsExceedImage);
      }
      r := HashRange(digest, blob, sum, |blob| - h.securitySize, cancel);
    }
  }

  /** The checks as the pass makes them; `RoundedTestIsFit` relates them to the declarative form. */
  ghost predicate RoundedTest(h: Header, s: seq<Section>, n: nat)
    requires AcceptedAlignment(h.fileAlignment)
  {
    var t := Aligned(s, h.fileAlignment);
    Chained(t, h.sizeOfHeaders, n) && h.sizeOfHeaders + Total(t) + h.securitySize <= n
  }

  lemma RoundedTestIsFit(h: Header, s: seq<Section>, n: nat)
    requires Structural(h, s, n)
    ensures RoundedTest(h, s, n) <==> RoundedFits(h, s, n)
  {
    RoundedStarts(s, h.fileAlignment);
    ChainedIffLaid(Aligned(s, h.fileAlignment), h.sizeOfHeaders, n);
  }

  method HashRoundedSection(
    digest: RunningDigest, blob: seq<Byte>, section: Section, previousEnd: nat, cancel: CancelCheck?)
    returns (r: Step, fits: Check<PeError>)
    modifies digest
    ensures r.Done? ==> (fits.Pass? <==> previousEnd <= section.rawOffset && section.End() <= |blob|)
    ensures r.Done? && fits.Pass? ==>
      digest.fed == old(digest.fed) + blob[section.rawOffset..section.End()]
    ensures !r.OutsideImage? && (r.Stopped? ==> cancel != null)
  {
    if section.rawOffset > |blob| || section.rawSize > |blob| - section.rawOffset {
      return Done, Fail(OutOfBounds);
    }
    if section.rawOffset < previousEnd {
      return Done, Fail(AlignedSectionsOverlap);
    }
    fits := Pass;
    r := HashRange(digest, blob, section.rawOffset, section.End(), cancel);
  }

  method HashRounded(digest: RunningDigest, blob: seq<Byte>, h: Header, s: seq<Section>, cancel: CancelCheck?)
    returns (r: Step, fits: Check<PeError>, sum: nat)
    requires AcceptedAlignment(h.fileAlignment)
    modifies digest
    ensures r.Done? ==> (fits.Pass? <==> Chained(Aligned(s, h.fileAlignment), h.sizeOfHeaders, |blob|))
    ensures r.Done? && fits.Pass? ==>
      && digest.fed == old(digest.fed) + Body(blob, Aligned(s, h.fileAlignment))
      && sum == h.sizeOfHeaders + Total(Aligned(s, h.fileAlignment))
    ensures !r.OutsideImage? && (r.Stopped? ==> cancel != null)
  {
    r, fits, sum := Done, Pass, h.sizeOfHeaders;
    ghost var t := Aligned(s, h.fileAlignment);
    var previousEnd := h.sizeOfHeaders;
    var i := 0;
    while i < |s|
      invariant 0 <= i <= |s| && r.Done? && fits.Pass?
      invariant Chained(t[..i], h.sizeOfHeaders, |blob|)
      invariant previousEnd == LastEnd(t[..i], h.sizeOfHeaders)
      invariant sum == h.sizeOfHeaders + Total(t[..i])
      invariant digest.fed == old(digest.fed) + Body(blob, t[..i])
    {
      var section := RoundUp(s[i], h.fileAlignment);
      AlignedAt(s, h.fileAlignment, i);
      ChainedNext(t, i, h.sizeOfHeaders, |blob|);
      r, fits := HashRoundedSection(digest, blob, section, previousEnd, cancel);
      if !r.Done? || fits.Fail? {
        return;
      }
      BodyNext(blob, t, i, old(digest.fed));
      previousEnd := section.End();
      sum := sum + section.rawSize;
      i := i + 1;
    }
    assert t[..i] == t;
  }

  /** What the sweep tests: each section starts no earlier than its predecessor stops. */
  ghost predicate Chained(t: seq<Section>, start: nat, n: nat) {
    && (forall i :: 0 <= i < |t| ==> t[i].End() <= n)
    && (forall i {:trigger StopBefore(t, i, start)} :: 0 <= i < |t| ==> StopBefore(t, i, start) <= t[i].rawOffset)
  }

  lemma ChainedNext(t: seq<Section>, i: nat, start: nat, n: nat)
    requires i < |t| && Chained(t[..i], start, n)
    ensures LastEnd(t[..i + 1], start) == t[i].End()
    ensures Chained(t[..i + 1], start, n) <==> LastEnd(t[..i], start) <= t[i].rawOffset && t[i].End() <= n
    ensures Chained(t, start, n) ==> Chained(t[..i + 1], start, n)
  {
    var u := t[..i + 1];
    forall k | 0 <= k <= i
      ensures StopBefore(u, k, start) == StopBefore(t, k, start) && u[k] == t[k]
      ensures k < i ==> StopBefore(u, k, start) == StopBefore(t[..i], k, start) && u[k] == t[..i][k]
    {
    }
    assert StopBefore(u, i, start) == LastEnd(t[..i], start);
  }

  lemma {:induction false} ChainedPrefix(t: seq<Section>, start: nat, n: nat, j: nat)
    requires Chained(t, start, n) && j < |t|
    ensures start <= t[j].rawOffset && forall i :: 0 <= i < j ==> t[i].End() <= t[j].rawOffset
  {
    assert StopBefore(t, j, start) <= t[j].rawOffset;
    if j > 0 {
      ChainedPrefix(t, start, n, j - 1);
    }
  }

  lemma ChainedIffLaid(t: seq<Section>, start: nat, n: nat)
    requires forall i :: 0 <= i < |t| ==> t[i].rawSize > 0
    ensures Chained(t, start, n) <==> Laid(t, start, n)
  {
    if Chained(t, start, n) {
      forall j | 0 <= j < |t|
        ensures start <= t[j].rawOffset && forall i :: 0 <= i < j ==> t[i].End() <= t[j].rawOffset
      {
        ChainedPrefix(t, start, n, j);
      }
    }
  }

  predicate UefiSubsystem(subsystem: nat) {
    subsystem in {10, 11, 12, 13}
  }

  /** The image is judged: it has the required structure and its three digests agree. */
  ghost predicate Accepted(blob: seq<Byte>, sha: seq<Byte> -> string) {
    var r := ParseHeader(blob);
    r.Success? &&
    var (h, s, n) := (r.value, Sections(blob, r.value), |blob|);
    && Structural(h, s, n)
    && RoundedFits(h, s, n)
    && DigestsAgree(blob, h, s, sha)
  }

  ghost predicate DigestsAgree(blob: seq<Byte>, h: Header, s: seq<Section>, sha: seq<Byte> -> string)
    requires Structural(h, s, |blob|) && RoundedFits(h, s, |blob|)
  {
    StructuralFits(h, s, |blob|);
    && sha(SectionedStream(blob, h, s)) == sha(CatalogStream(blob, h))
    && sha(SectionedStream(blob, h, Aligned(s, h.fileAlignment))) == sha(CatalogStream(blob, h))
  }

  ghost function HeaderOf(blob: seq<Byte>): Header
    requires ParseHeader(blob).Success?
  {
    ParseHeader(blob).value
  }

  ghost function ImageHash(blob: seq<Byte>, sha: seq<Byte> -> string): string
    requires Accepted(blob, sha)
  {
    sha(CatalogStream(blob, HeaderOf(blob)))
  }

  /** The three hashing passes, one after the other; the streams fed are handed back for comparison. */
  method HashImage(blob: seq<Byte>, h: Header, s: seq<Section>, cancel: CancelCheck?)
    returns (step: Step, fits: Check<PeError>, catalog: seq<Byte>, reference: seq<Byte>, rufus: seq<Byte>)
    requires Structural(h, s, |blob|)
    ensures h.sizeOfHeaders + Total(s) + h.securitySize <= |blob|
    ensures !step.OutsideImage? && (step.Stopped? ==> cancel != null)
    ensures step.Done? ==> (fits.Pass? <==> RoundedFits(h, s, |blob|))
    ensures step.Done? ==> catalog == CatalogStream(blob, h) && reference == SectionedStream(blob, h, s)
    ensures step.Done? && fits.Pass? ==> rufus == SectionedStream(blob, h, Aligned(s, h.fileAlignment))
  {
    StructuralFits(h, s, |blob|);
    fits, catalog, reference, rufus := Pass, [], [], [];
    var digest := new RunningDigest();
    :- HashCatalog(digest, blob, h, cancel);
    catalog := digest.fed;
    digest := new RunningDigest();
    :- HashReference(digest, blob, h, s, cancel);
    reference := digest.fed;
    digest := new RunningDigest();
    RoundedTestIsFit(h, s, |blob|);
    step, fits := HashRufus(digest, blob, h, s, cancel);
    rufus := digest.fed;
  }

  /** A digest is returned exactly for accepted images of a UEFI subsystem, and it is the catalog stream's. */
  method PeAuthenticodeSha256(blob: seq<Byte>, sha: seq<Byte> -> string, cancel: CancelCheck?)
    returns (r: Outcome)
    ensures r.Cancelled? ==> cancel != null
    ensures !r.Cancelled? ==> (r.Error? <==> !Accepted(blob, sha))
    ensures r.Error? && ParseHeader(blob).Failure? ==> r.error == ParseHeader(blob).error
    ensures r.Digest? || r.NonUefi? ==> (r.Digest? <==> 10 <= HeaderOf(blob).subsystem <= 13)
    ensures r.Digest? ==>
      r == Digest(HeaderOf(blob).machine, HeaderOf(blob).architecture, ImageHash(blob, sha))
  {
    hide ParseHeader, Structural, RoundedFits, SectionedStream, CatalogStream, Laid, RawSections, SortByOffset;
    var raised := Poll(cancel);
    if raised {
      return Cancelled;
    }
    var parsed := ParseHeader(blob);
    if parsed.Failure? {
      return Error(parsed.error);
    }
    var h := parsed.value;
    var collected := ReadSections(blob, h);
    PlacedSections(blob, h);
    if collected.Failure? {
      return Error(collected.error);
    }
    var s := SortByOffset(collected.value);
    assert s == Sections(blob, h);
    var placement := CheckPlacement(h, s, |blob|);
    if placement.Fail? {
      return Error(placement.error);
    }
    var step, fits, catalog, reference, rufus := HashImage(blob, h, s, cancel);
    if step.Stopped? {
      return Cancelled;
    }
    if fits.Fail? {
      return Error(fits.error);
    }
    raised := Poll(cancel);
    if raised {
      return Cancelled;
    }
    if sha(reference) != sha(catalog) || sha(rufus) != sha(catalog) {
      return Error(DivergentDigests);
    }
    if !UefiSubsystem(h.subsystem) {
      return NonUefi;
    }
    return Digest(h.machine, h.architecture, sha(catalog));
  }

  /** Sorting keeps every section, so the loop's checks are about the sorted list as well. */
  lemma PlacedSections(blob: seq<Byte>, h: Header)
    requires h.Valid(|blob|)
    ensures
      var placed := forall x :: x in RawSections(blob, h, h.sectionCount) ==> InFile(x, h.sizeOfHeaders, |blob|);
      var s := Sections(blob, h);
      && (placed ==> forall i :: 0 <= i < |s| ==> h.sizeOfHeaders <= s[i].rawOffset && s[i].End() <= |blob|)
      && (!placed ==> !Structural(h, s, |blob|))
  {
    var raw, s := RawSections(blob, h, h.sectionCount), Sections(blob, h);
    if x :| x in raw && !InFile(x, h.sizeOfHeaders, |blob|) {
      assert x in s;
    } else {
      assert forall i :: 0 <= i < |s| ==> s[i] in raw && InFile(s[i], h.sizeOfHeaders, |blob|);
    }
  }
}
