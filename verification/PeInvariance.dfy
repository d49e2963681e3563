/** What the image hash does not depend on, and when the three layouts can differ. */
module PeInvariance {
  import opened Wrappers
  import opened Bytes
  import opened Alignment
  import opened PeHeader
  import opened PeStreams
  import opened PeDigest

  // ----- two images with the same headers

  ghost predicate ExcludedInHeaders(h: Header, p: nat) {
    || h.checksumOffset <= p < h.checksumOffset + 4
    || (h.securityDirectory.Some? && h.securityDirectory.value <= p < h.securityDirectory.value + 8)
  }

  ghost predicate AgreeAt(a: seq<Byte>, b: seq<Byte>, p: nat)
    requires p < |a| && p < |b|
  {
    a[p] == b[p]
  }

  ghost predicate SameHeaders(a: seq<Byte>, b: seq<Byte>, h: Header) {
    && h.sizeOfHeaders <= |a| && h.sizeOfHeaders <= |b|
    && forall p :: 0 <= p < h.sizeOfHeaders && !ExcludedInHeaders(h, p) ==> AgreeAt(a, b, p)
  }

  lemma SameSlice(a: seq<Byte>, b: seq<Byte>, h: Header, lo: nat, hi: nat)
    requires SameHeaders(a, b, h) && lo <= hi <= h.sizeOfHeaders
    requires forall p :: lo <= p < hi ==> !ExcludedInHeaders(h, p)
    ensures a[lo..hi] == b[lo..hi]
  {
    forall p | lo <= p < hi ensures a[p] == b[p] {
      assert AgreeAt(a, b, p);
    }
  }

  lemma SameU32(a: seq<Byte>, b: seq<Byte>, h: Header, o: nat)
    requires SameHeaders(a, b, h) && o + 4 <= h.sizeOfHeaders
    requires forall p :: o <= p < o + 4 ==> !ExcludedInHeaders(h, p)
    ensures U32At(a, o) == U32At(b, o)
  {
    assert AgreeAt(a, b, o) && AgreeAt(a, b, o + 1) && AgreeAt(a, b, o + 2) && AgreeAt(a, b, o + 3);
  }

  lemma SameU16(a: seq<Byte>, b: seq<Byte>, h: Header, o: nat)
    requires SameHeaders(a, b, h) && o + 2 <= h.sizeOfHeaders
    requires forall p :: o <= p < o + 2 ==> !ExcludedInHeaders(h, p)
    ensures U16At(a, o) == U16At(b, o)
  {
    assert AgreeAt(a, b, o) && AgreeAt(a, b, o + 1);
  }

  /** Where the parser found the optional header. */
  lemma CoffPlaces(a: seq<Byte>)
    requires ParseHeader(a).Success?
    ensures ParseCoff(a).Success?
    ensures
      var (h, c, pe) := (ParseHeader(a).value, ParseCoff(a).value, U32At(a, 0x3C));
      && pe >= 64 && c.optional == pe + 24
      && h.checksumOffset == c.optional + 64
      && h.sectionTable == c.optional + c.optionalSize <= h.sizeOfHeaders <= |a|
      && c.optionalSize >= 96
      && (h.securityDirectory.Some? ==> h.securityDirectory.value >= c.optional + 128)
  {
  }

  lemma SameCoff(a: seq<Byte>, b: seq<Byte>)
    requires ParseHeader(a).Success? && |b| <= MAX_PE_BYTES && SameHeaders(a, b, ParseHeader(a).value)
    ensures ParseCoff(b) == ParseCoff(a)
  {
    hide ParseHeader, U16At, U32At, ArchitectureOf, AgreeAt;
    var h, pe := ParseHeader(a).value, U32At(a, 0x3C);
    CoffPlaces(a);
    SameSlice(a, b, h, 0, 2);
    assert a[..2] == a[0..2] && b[..2] == b[0..2];
    SameU32(a, b, h, 0x3C);
    SameSlice(a, b, h, pe, pe + 4);
    SameSlice(a, b, h, pe + 4, pe + 6);
    SameSlice(a, b, h, pe + 6, pe + 8);
    SameSlice(a, b, h, pe + 20, pe + 22);
  }

  ghost predicate GoodEntry(b: seq<Byte>, h: Header, offset: nat, size: nat) {
    && (offset == 0 <==> size == 0)
    && (size > 0 ==> offset % 8 == 0 && h.sizeOfHeaders <= offset && offset + size <= |b|)
  }

  ghost predicate EntryIs(b: seq<Byte>, h: Header, offset: nat, size: nat) {
    match h.securityDirectory
    case None => offset == 0 && size == 0
    case Some(entry) => entry + 8 <= |b| && U32At(b, entry) == offset && U32At(b, entry + 4) == size
  }

  /** Rewriting CheckSum and the directory entry changes nothing the parser reads but the entry itself. */
  lemma Reparse(a: seq<Byte>, b: seq<Byte>, h: Header, offset: nat, size: nat)
    requires ParseHeader(a) == Success(h) && |b| <= MAX_PE_BYTES && SameHeaders(a, b, h)
    requires EntryIs(b, h, offset, size)
    ensures ParseHeader(b).Success? <==> GoodEntry(b, h, offset, size)
    ensures ParseHeader(b).Success? ==>
      ParseHeader(b).value == h.(securityOffset := offset, securitySize := size)
  {
    hide ParseCoff, U16At, U32At, AcceptedAlignment, ExpectedMagic, AgreeAt;
    CoffPlaces(a);
    SameCoff(a, b);
    var c := ParseCoff(a).value;
    SameU16(a, b, h, c.optional);
    SameU16(a, b, h, c.optional + 68);
    SameU32(a, b, h, c.optional + 60);
    SameU32(a, b, h, c.optional + 36);
    SameU32(a, b, h, c.optional + if U16At(a, c.optional) == 0x10B then 92 else 108);
  }

  lemma {:induction false} SameRawSections(a: seq<Byte>, b: seq<Byte>, h: Header, h': Header, count: nat)
    requires h.Valid(|a|) && h'.Valid(|b|) && SameHeaders(a, b, h) && count <= h.sectionCount
    requires h' == h.(securityOffset := h'.securityOffset, securitySize := h'.securitySize)
    ensures RawSections(b, h', count) == RawSections(a, h, count)
  {
    if count > 0 {
      SameRawSections(a, b, h, h', count - 1);
      var entry := h.sectionTable + (count - 1) * 40;
      SameU32(a, b, h, entry + 16);
      SameU32(a, b, h, entry + 20);
    }
  }

  lemma SameSections(a: seq<Byte>, b: seq<Byte>, h: Header, h': Header)
    requires h.Valid(|a|) && h'.Valid(|b|) && SameHeaders(a, b, h)
    requires h' == h.(securityOffset := h'.securityOffset, securitySize := h'.securitySize)
    ensures Sections(b, h') == Sections(a, h)
  {
    SameRawSections(a, b, h, h', h.sectionCount);
  }

  // ----- two images that also agree on everything up to the certificate table

  ghost predicate SameContent(a: seq<Byte>, h: Header, b: seq<Byte>, h': Header) {
    && h.Valid(|a|) && h'.Valid(|b|)
    && h' == h.(securityOffset := h'.securityOffset, securitySize := h'.securitySize)
    && (h.securitySize > 0 ==> h.securityOffset + h.securitySize == |a|)
    && (h'.securitySize > 0 ==> h'.securityOffset + h'.securitySize == |b|)
    && ContentEnd(h, |a|) == ContentEnd(h', |b|)
    && SameHeaders(a, b, h)
    && a[h.sizeOfHeaders..ContentEnd(h, |a|)] == b[h.sizeOfHeaders..ContentEnd(h, |a|)]
  }

  lemma SameHeaderPart(a: seq<Byte>, h: Header, b: seq<Byte>, h': Header)
    requires SameContent(a, h, b, h')
    ensures HeaderPart(a, h) == HeaderPart(b, h')
  {
    SameSlice(a, b, h, 0, h.checksumOffset);
    match h.securityDirectory
    case None =>
      SameSlice(a, b, h, h.checksumOffset + 4, h.sizeOfHeaders);
    case Some(entry) =>
      SameSlice(a, b, h, h.checksumOffset + 4, entry);
      SameSlice(a, b, h, entry + 8, h.sizeOfHeaders);
  }

  lemma SameCatalog(a: seq<Byte>, h: Header, b: seq<Byte>, h': Header)
    requires SameContent(a, h, b, h')
    ensures CatalogStream(a, h) == CatalogStream(b, h')
  {
    hide HeaderPart, CatalogStream, SameHeaders;
    SameHeaderPart(a, h, b, h');
    CatalogSplit(a, h);
    CatalogSplit(b, h');
  }

  lemma SameSubslice<T>(a: seq<T>, b: seq<T>, lo: nat, hi: nat, from: nat, to: nat)
    requires lo <= from <= to <= hi <= |a| && hi <= |b| && a[lo..hi] == b[lo..hi]
    ensures a[from..to] == b[from..to]
  {
    forall k | 0 <= k < to - from ensures a[from..to][k] == b[from..to][k] {
      assert a[lo..hi][from - lo + k] == a[from + k];
      assert b[lo..hi][from - lo + k] == b[from + k];
    }
  }

  ghost predicate WithinContent(t: seq<Section>, start: nat, end: nat) {
    forall i :: 0 <= i < |t| ==> start <= t[i].rawOffset && t[i].End() <= end
  }

  lemma {:induction false} SameBody(a: seq<Byte>, b: seq<Byte>, t: seq<Section>, start: nat, end: nat)
    requires start <= end <= |a| && end <= |b| && a[start..end] == b[start..end]
    requires WithinContent(t, start, end)
    ensures Body(a, t) == Body(b, t)
  {
    if t != [] {
      var front, last := t[..|t| - 1], t[|t| - 1];
      assert forall i :: 0 <= i < |front| ==> front[i] == t[i];
      SameBody(a, b, front, start, end);
      assert start <= last.rawOffset && last.End() <= end;
      SameSubslice(a, b, start, end, last.rawOffset, last.End());
    }
  }

  lemma SameSectioned(a: seq<Byte>, h: Header, b: seq<Byte>, h': Header, t: seq<Section>)
    requires SameContent(a, h, b, h')
    requires WithinContent(t, h.sizeOfHeaders, ContentEnd(h, |a|))
    requires h.sizeOfHeaders + Total(t) <= ContentEnd(h, |a|)
    ensures SectionedStream(a, h, t) == SectionedStream(b, h', t)
  {
    hide HeaderPart, Body, CatalogStream, SameHeaders, Total;
    var soh, end := h.sizeOfHeaders, ContentEnd(h, |a|);
    SameHeaderPart(a, h, b, h');
    SameBody(a, b, t, soh, end);
    SameSubslice(a, b, soh, end, soh + Total(t), end);
  }

  /** Rounding stretches no section into the certificate table. */
  ghost predicate RoundedBeforeCertificate(h: Header, s: seq<Section>, n: nat)
    requires h.Valid(n)
  {
    WithinContent(Aligned(s, h.fileAlignment), h.sizeOfHeaders, ContentEnd(h, n))
  }

  lemma GaplessRoundsBeforeCertificate(h: Header, s: seq<Section>, n: nat)
    requires Structural(h, s, n) && RoundedFits(h, s, n) && Gapless(s, h.sizeOfHeaders)
    ensures RoundedBeforeCertificate(h, s, n)
  {
    var t := Aligned(s, h.fileAlignment);
    GaplessRounded(h, s, n);
    GaplessBody(Positions(n), t, h.sizeOfHeaders);
    forall i | 0 <= i < |t| ensures t[i].End() <= ContentEnd(h, n) {
      if i < |t| - 1 {
        assert t[i].End() <= t[|t| - 1].rawOffset;
      }
    }
  }

  lemma TransferStructure(a: seq<Byte>, h: Header, b: seq<Byte>, h': Header, s: seq<Section>)
    requires SameContent(a, h, b, h') && Structural(h, s, |a|)
    ensures Structural(h', s, |b|)
    ensures WithinContent(s, h.sizeOfHeaders, ContentEnd(h, |a|))
  {
  }

  lemma TransferRounding(a: seq<Byte>, h: Header, b: seq<Byte>, h': Header, s: seq<Section>)
    requires SameContent(a, h, b, h') && RoundedFits(h, s, |a|) && RoundedBeforeCertificate(h, s, |a|)
    ensures RoundedFits(h', s, |b|)
    ensures h.sizeOfHeaders + Total(Aligned(s, h.fileAlignment)) <= ContentEnd(h, |a|)
  {
  }

  /** An accepted image stays accepted, with the same hash, when only excluded bytes change. */
  lemma TransferAcceptance(a: seq<Byte>, h: Header, b: seq<Byte>, h': Header, sha: seq<Byte> -> string)
    requires ParseHeader(a) == Success(h) && ParseHeader(b) == Success(h')
    requires SameContent(a, h, b, h') && Accepted(a, sha)
    requires RoundedBeforeCertificate(h, Sections(a, h), |a|)
    ensures Accepted(b, sha) && ImageHash(b, sha) == ImageHash(a, sha)
  {
    hide ParseHeader, CatalogStream, SectionedStream, SameContent, Sections, Structural, RoundedFits,
         RoundedBeforeCertificate, Laid, WithinContent;
    var s := Sections(a, h);
    assert h.Valid(|a|) && h'.Valid(|b|);
    SameParts(a, h, b, h');
    SameSections(a, b, h, h');
    TransferStructure(a, h, b, h', s);
    TransferRounding(a, h, b, h', s);
    StructuralFits(h, s, |a|);
    SameCatalog(a, h, b, h');
    SameSectioned(a, h, b, h', s);
    RoundedWithin(h, s, |a|);
    SameSectioned(a, h, b, h', Aligned(s, h.fileAlignment));
  }

  lemma SameParts(a: seq<Byte>, h: Header, b: seq<Byte>, h': Header)
    requires SameContent(a, h, b, h')
    ensures SameHeaders(a, b, h)
    ensures h' == h.(securityOffset := h'.securityOffset, securitySize := h'.securitySize)
  {
  }

  lemma RoundedWithin(h: Header, s: seq<Section>, n: nat)
    requires h.Valid(n) && RoundedBeforeCertificate(h, s, n)
    ensures WithinContent(Aligned(s, h.fileAlignment), h.sizeOfHeaders, ContentEnd(h, n))
  {
  }

  // ----- the theorems

  /** Without gaps the digests agree whatever the hash function, so the image is accepted. */
  lemma GaplessIsAccepted(blob: seq<Byte>, sha: seq<Byte> -> string)
    requires ParseHeader(blob).Success?
    requires
      var (h, s, n) := (HeaderOf(blob), Sections(blob, HeaderOf(blob)), |blob|);
      Structural(h, s, n) && RoundedFits(h, s, n) && Gapless(s, h.sizeOfHeaders)
    ensures Accepted(blob, sha)
  {
    hide ParseHeader, CatalogStream, SectionedStream, Sections, Structural, RoundedFits, Gapless;
    GaplessLayoutsAgree(blob, HeaderOf(blob), Sections(blob, HeaderOf(blob)));
  }

  /** An image of `n` bytes with the given headers and section table. */
  ghost predicate Shaped(blob: seq<Byte>, h: Header, s: seq<Section>, n: nat) {
    |blob| == n && ParseHeader(blob) == Success(h) && Sections(blob, h) == s
  }

  ghost predicate LayoutsAgree(blob: seq<Byte>, h: Header, s: seq<Section>)
    requires Structural(h, s, |blob|) && RoundedFits(h, s, |blob|)
  {
    StructuralFits(h, s, |blob|);
    && SectionedStream(blob, h, s) == CatalogStream(blob, h)
    && SectionedStream(blob, h, Aligned(s, h.fileAlignment)) == CatalogStream(blob, h)
  }

  lemma FirstDifference<T>(x: seq<T>, y: seq<T>) returns (k: nat)
    requires |x| == |y| && x != y
    ensures k < |x| && x[k] != y[k]
  {
    k :| 0 <= k < |x| && x[k] != y[k];
  }

  /** The place where a gap makes the reference layout read another position than the catalog layout. */
  lemma DifferentPlace(h: Header, s: seq<Section>, n: nat) returns (k: nat, p: nat)
    requires Structural(h, s, n) && !Gapless(s, h.sizeOfHeaders)
    ensures h.sizeOfHeaders + Total(s) + h.securitySize <= n
    ensures k < |CatalogStream(Positions(n), h)| == |SectionedStream(Positions(n), h, s)|
    ensures CatalogStream(Positions(n), h)[k] == p != SectionedStream(Positions(n), h, s)[k]
    ensures h.sizeOfHeaders <= p < ContentEnd(h, n)
  {
    hide HeaderPart, Body, CatalogStream, SectionedStream, Gapless, Total;
    var ids, soh, end := Positions(n), h.sizeOfHeaders, ContentEnd(h, n);
    StructuralFits(h, s, n);
    SamePositionsIffGapless(h, s, n);
    CatalogLength(ids, h);
    SectionedLength(ids, h, s);
    k := FirstDifference(CatalogStream(ids, h), SectionedStream(ids, h, s));
    CatalogSplit(ids, h);
    SectionedParts(ids, h, s);
    BeyondHeaders(HeaderPart(ids, h), ids[soh..end], Body(ids, s), ids[soh + Total(s)..end], k);
    p := CatalogStream(ids, h)[k];
    assert p == ids[soh..end][k - |HeaderPart(ids, h)|];
  }

  lemma BeyondHeaders<T>(head: seq<T>, span: seq<T>, body: seq<T>, rest: seq<T>, k: nat)
    requires k < |head + span| == |head + body + rest|
    requires (head + span)[k] != (head + body + rest)[k]
    ensures k >= |head| && (head + span)[k] == span[k - |head|]
  {
  }

  /** A gap can always be filled so that the layouts differ: one changed byte, same headers, same sections. */
  lemma GapCanDiverge(blob: seq<Byte>, h: Header, s: seq<Section>) returns (other: seq<Byte>)
    requires Shaped(blob, h, s, |blob|) && Structural(h, s, |blob|) && RoundedFits(h, s, |blob|)
    requires !Gapless(s, h.sizeOfHeaders)
    ensures Shaped(other, h, s, |blob|) && !LayoutsAgree(other, h, s)
  {
    hide ParseHeader, HeaderPart, Body, CatalogStream, SectionedStream, Gapless, Sections, RoundedFits, Total;
    var n := |blob|;
    var k, p := DifferentPlace(h, s, n);
    var q := SectionedStream(Positions(n), h, s)[k];
    SectionedRead(blob, h, s);
    other := blob[p := (blob[q] as int + 1) % 256];
    SectionedRead(other, h, s);
    CatalogRead(other, h);
    SameShape(blob, other, h, s);
    assert CatalogStream(other, h)[k] == other[p] && SectionedStream(other, h, s)[k] == other[q];
  }

  lemma SameShape(blob: seq<Byte>, other: seq<Byte>, h: Header, s: seq<Section>)
    requires Shaped(blob, h, s, |blob|) && |other| == |blob| && h.Valid(|blob|)
    requires forall i :: 0 <= i < h.sizeOfHeaders ==> other[i] == blob[i]
    ensures Shaped(other, h, s, |blob|)
  {
    hide ParseHeader, Sections;
    match h.securityDirectory {
      case None =>
      case Some(entry) => SecurityEntry(blob, h);
    }
    Reparse(blob, other, h, h.securityOffset, h.securitySize);
    SameSections(blob, other, h, h);
  }

  /** What the parsed header says about the directory entry is what is stored there. */
  lemma SecurityEntry(blob: seq<Byte>, h: Header)
    requires ParseHeader(blob) == Success(h)
    ensures EntryIs(blob, h, h.securityOffset, h.securitySize)
    ensures GoodEntry(blob, h, h.securityOffset, h.securitySize)
  {
  }

  /**
   The exact condition: for given headers and sections the three layouts feed the same bytes for every
   content of the file if and only if the sections leave no gap after SizeOfHeaders.
   */
  lemma LayoutsAgreeIffGapless(blob: seq<Byte>, h: Header, s: seq<Section>)
    requires Shaped(blob, h, s, |blob|) && Structural(h, s, |blob|) && RoundedFits(h, s, |blob|)
    ensures (forall other: seq<Byte> :: Shaped(other, h, s, |blob|) ==> LayoutsAgree(other, h, s))
      <==> Gapless(s, h.sizeOfHeaders)
  {
    hide ParseHeader, CatalogStream, SectionedStream, Gapless, Sections, Structural, RoundedFits;
    if Gapless(s, h.sizeOfHeaders) {
      forall other: seq<Byte> | Shaped(other, h, s, |blob|) ensures LayoutsAgree(other, h, s) {
        GaplessLayoutsAgree(other, h, s);
      }
    } else {
      var other := GapCanDiverge(blob, h, s);
      assert Shaped(other, h, s, |blob|);
    }
  }
}
