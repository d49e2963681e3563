/** Attaching, replacing and removing an Authenticode signature leaves the image hash alone. */
module PeSigning {
  import opened Wrappers
  import opened Bytes
  import opened PeHeader
  import opened PeStreams
  import opened PeDigest
  import opened PeInvariance

  /** The image up to `end` with CheckSum and the directory entry replaced, followed by a certificate table. */
  function Rewritten(blob: seq<Byte>, h: Header, checksum: seq<Byte>, entry: seq<Byte>, end: nat, table: seq<Byte>)
    : seq<Byte>
    requires h.Valid(|blob|) && h.securityDirectory.Some?
    requires |checksum| == 4 && |entry| == 8 && h.sizeOfHeaders <= end <= |blob|
  {
    var ck, e := h.checksumOffset, h.securityDirectory.value;
    blob[0..ck] + checksum + blob[ck + 4..e] + entry + blob[e + 8..end] + table
  }

  lemma RewrittenAt(blob: seq<Byte>, h: Header, checksum: seq<Byte>, entry: seq<Byte>, end: nat, table: seq<Byte>)
    requires h.Valid(|blob|) && h.securityDirectory.Some?
    requires |checksum| == 4 && |entry| == 8 && h.sizeOfHeaders <= end <= |blob|
    ensures
      var (r, ck, e) := (Rewritten(blob, h, checksum, entry, end, table), h.checksumOffset, h.securityDirectory.value);
      && |r| == end + |table|
      && (forall p :: 0 <= p < |r| ==>
            (r[p] == if ck <= p < ck + 4 then checksum[p - ck]
                     else if e <= p < e + 8 then entry[p - e]
                     else if p < end then blob[p]
                     else table[p - end]))
  {
  }

  /** What a rewritten image shares with the original, and what its own entry says. */
  lemma RewrittenParts(blob: seq<Byte>, h: Header, checksum: seq<Byte>, entry: seq<Byte>, end: nat, table: seq<Byte>)
    requires h.Valid(|blob|) && h.securityDirectory.Some?
    requires |checksum| == 4 && |entry| == 8 && h.sizeOfHeaders <= end <= |blob|
    ensures
      var r := Rewritten(blob, h, checksum, entry, end, table);
      && |r| == end + |table|
      && SameHeaders(blob, r, h)
      && blob[h.sizeOfHeaders..end] == r[h.sizeOfHeaders..end]
      && EntryIs(r, h, U32At(entry, 0), U32At(entry, 4))
  {
    hide Rewritten;
    RewrittenAt(blob, h, checksum, entry, end, table);
  }

  /** Content that is shared up to the certificate keeps the hash; with room for the rounding, acceptance too. */
  lemma SharedContent(a: seq<Byte>, b: seq<Byte>, h: Header, offset: nat, size: nat, sha: seq<Byte> -> string)
    requires Accepted(a, sha) && h == HeaderOf(a) && |b| <= MAX_PE_BYTES
    requires SameHeaders(a, b, h) && EntryIs(b, h, offset, size) && GoodEntry(b, h, offset, size)
    requires size > 0 ==> offset + size == |b|
    requires ContentEnd(h, |a|) == |b| - size
    requires a[h.sizeOfHeaders..ContentEnd(h, |a|)] == b[h.sizeOfHeaders..ContentEnd(h, |a|)]
    ensures ParseHeader(b) == Success(h.(securityOffset := offset, securitySize := size))
    ensures SameContent(a, h, b, HeaderOf(b))
    ensures Accepted(b, sha) ==> ImageHash(b, sha) == ImageHash(a, sha)
    ensures RoundedBeforeCertificate(h, Sections(a, h), |a|) ==> Accepted(b, sha)
  {
    hide ParseHeader, CatalogStream, SectionedStream, Sections, RoundedFits, Laid, SameHeaders,
         RoundedBeforeCertificate;
    Reparse(a, b, h, offset, size);
    var h' := h.(securityOffset := offset, securitySize := size);
    SameCatalog(a, h, b, h');
    if RoundedBeforeCertificate(h, Sections(a, h), |a|) {
      TransferAcceptance(a, h, b, h', sha);
    }
  }

  /** The same file but for CheckSum and certificate bytes: the directory entry, too, says the same. */
  ghost predicate SameButExcluded(a: seq<Byte>, b: seq<Byte>, h: Header) {
    && |a| == |b|
    && (forall p :: 0 <= p < |a| && !Excluded(h, p) ==> AgreeAt(a, b, p))
    && EntryIs(b, h, h.securityOffset, h.securitySize)
  }

  lemma SameButExcludedParts(a: seq<Byte>, b: seq<Byte>, h: Header)
    requires h.Valid(|a|) && SameButExcluded(a, b, h)
    requires h.securitySize > 0 ==> h.securityOffset + h.securitySize == |a|
    ensures SameHeaders(a, b, h)
    ensures a[h.sizeOfHeaders..ContentEnd(h, |a|)] == b[h.sizeOfHeaders..ContentEnd(h, |a|)]
  {
    forall p | h.sizeOfHeaders <= p < ContentEnd(h, |a|) ensures a[p] == b[p] {
      assert AgreeAt(a, b, p);
    }
  }

  /** Rewriting CheckSum or certificate bytes never changes the hash of an image that is accepted both ways. */
  lemma ExcludedBytesDoNotMatter(a: seq<Byte>, b: seq<Byte>, sha: seq<Byte> -> string)
    requires Accepted(a, sha) && SameButExcluded(a, b, HeaderOf(a))
    ensures ParseHeader(b) == ParseHeader(a)
    ensures Accepted(b, sha) ==> ImageHash(b, sha) == ImageHash(a, sha)
    ensures RoundedBeforeCertificate(HeaderOf(a), Sections(a, HeaderOf(a)), |a|) ==> Accepted(b, sha)
  {
    hide ParseHeader, CatalogStream, SectionedStream, Sections, RoundedFits, Laid, RoundedBeforeCertificate,
         EntryIs, SameHeaders;
    var h := HeaderOf(a);
    SameButExcludedParts(a, b, h);
    SecurityEntry(a, h);
    SharedContent(a, b, h, h.securityOffset, h.securitySize, sha);
  }

  // ----- a rounded section that reaches into the certificate table

  /** A place where the rounded layout reads a certificate byte and the catalog layout a byte of the content. */
  lemma ReachedPlace(h: Header, s: seq<Section>, n: nat) returns (k: nat, p: nat, q: nat)
    requires Structural(h, s, n) && RoundedFits(h, s, n) && !RoundedBeforeCertificate(h, s, n)
    ensures k < |CatalogStream(Positions(n), h)| == |SectionedStream(Positions(n), h, Aligned(s, h.fileAlignment))|
    ensures CatalogStream(Positions(n), h)[k] == p
    ensures SectionedStream(Positions(n), h, Aligned(s, h.fileAlignment))[k] == q
    ensures p < ContentEnd(h, n) <= q < n
  {
    hide HeaderPart, Body, CatalogStream, SectionedStream, Total;
    var ids, t, soh := Positions(n), Aligned(s, h.fileAlignment), h.sizeOfHeaders;
    var i :| 0 <= i < |t| && t[i].End() > ContentEnd(h, n);
    var o := t[i].rawSize - 1;
    q := t[i].rawOffset + o;
    BodyAtSection(ids, t, i, o);
    var at := Total(t[..i]) + o;
    StreamLengths(ids, h, s);
    SectionedParts(ids, h, t);
    InThreeParts(HeaderPart(ids, h), Body(ids, t), ids[soh + Total(t)..ContentEnd(h, n)], |HeaderPart(ids, h)| + at);
    k := |HeaderPart(ids, h)| + at;
    p := CatalogStream(ids, h)[k];
    CatalogCoversTheRest(h, n);
    assert p in CatalogStream(ids, h);
  }

  /** Then a change of that one certificate byte makes the layouts differ. */
  lemma CertificateCanDiverge(blob: seq<Byte>, h: Header, s: seq<Section>) returns (other: seq<Byte>)
    requires Shaped(blob, h, s, |blob|) && Structural(h, s, |blob|) && RoundedFits(h, s, |blob|)
    requires !RoundedBeforeCertificate(h, s, |blob|)
    ensures SameButExcluded(blob, other, h) && Shaped(other, h, s, |blob|) && !LayoutsAgree(other, h, s)
    ensures other[..ContentEnd(h, |blob|)] == blob[..ContentEnd(h, |blob|)]
  {
    hide ParseHeader, HeaderPart, Body, CatalogStream, SectionedStream, Sections, RoundedFits, Total,
         RoundedBeforeCertificate;
    var n, t := |blob|, Aligned(s, h.fileAlignment);
    var k, p, q := ReachedPlace(h, s, n);
    other := blob[q := (blob[p] as int + 1) % 256];
    SameShape(blob, other, h, s);
    SecurityEntry(other, h);
    RoundedReads(other, h, s);
    CatalogRead(other, h);
    assert CatalogStream(other, h)[k] == other[p] && SectionedStream(other, h, t)[k] == other[q];
  }

  lemma RoundedReads(f: seq<Byte>, h: Header, s: seq<Section>)
    requires Structural(h, s, |f|) && RoundedFits(h, s, |f|)
    ensures
      var t := Aligned(s, h.fileAlignment);
      && (forall i :: 0 <= i < |t| ==> t[i].End() <= |f|) && h.sizeOfHeaders + Total(t) + h.securitySize <= |f|
      && ReadFrom(f, SectionedStream(Positions(|f|), h, t), SectionedStream(f, h, t))
  {
    hide HeaderPart, Body, SectionedStream, ReadFrom, Total;
    SectionedRead(f, h, Aligned(s, h.fileAlignment));
  }

  /** The exact condition under which no change of CheckSum or certificate bytes can make agreeing layouts differ. */
  lemma ExcludedBytesAreFreeExactly(blob: seq<Byte>, h: Header, s: seq<Section>)
    requires Shaped(blob, h, s, |blob|) && Structural(h, s, |blob|) && RoundedFits(h, s, |blob|)
    requires LayoutsAgree(blob, h, s)
    ensures
      (forall other: seq<Byte> | SameButExcluded(blob, other, h) ::
         Shaped(other, h, s, |blob|) && LayoutsAgree(other, h, s))
      <==> RoundedBeforeCertificate(h, s, |blob|)
  {
    hide ParseHeader, CatalogStream, SectionedStream, Sections, RoundedFits, RoundedBeforeCertificate, SameButExcluded,
         Laid, LayoutsAgree;
    if RoundedBeforeCertificate(h, s, |blob|) {
      forall other: seq<Byte> | SameButExcluded(blob, other, h)
        ensures Shaped(other, h, s, |blob|) && LayoutsAgree(other, h, s)
      {
        AgreementIsKept(blob, other, h, s);
      }
    } else {
      var other := CertificateCanDiverge(blob, h, s);
      assert SameButExcluded(blob, other, h);
    }
  }

  lemma AgreementIsKept(blob: seq<Byte>, other: seq<Byte>, h: Header, s: seq<Section>)
    requires Shaped(blob, h, s, |blob|) && Structural(h, s, |blob|) && RoundedFits(h, s, |blob|)
    requires LayoutsAgree(blob, h, s) && RoundedBeforeCertificate(h, s, |blob|) && SameButExcluded(blob, other, h)
    ensures Shaped(other, h, s, |blob|) && LayoutsAgree(other, h, s)
  {
    hide ParseHeader, CatalogStream, SectionedStream, Sections, RoundedFits, RoundedBeforeCertificate, EntryIs,
         SameHeaders;
    SameButExcludedParts(blob, other, h);
    SecurityEntry(blob, h);
    Reparse(blob, other, h, h.securityOffset, h.securitySize);
    SameSections(blob, other, h, h);
    SameCatalog(blob, h, other, h);
    StructuralFits(h, s, |blob|);
    TransferStructure(blob, h, other, h, s);
    SameSectioned(blob, h, other, h, s);
    TransferRounding(blob, h, other, h, s);
    RoundedWithin(h, s, |blob|);
    SameSectioned(blob, h, other, h, Aligned(s, h.fileAlignment));
  }

  // ----- signing

  /** What a signing tool writes: the table appended, and its place recorded in the directory. */
  function Signed(blob: seq<Byte>, h: Header, checksum: seq<Byte>, table: seq<Byte>): seq<Byte>
    requires h.Valid(|blob|) && h.securityDirectory.Some? && |checksum| == 4
  {
    Rewritten(blob, h, checksum, Le32(|blob|) + Le32(|table|), |blob|, table)
  }

  function SignedHeader(h: Header, n: nat, tableSize: nat): Header {
    h.(securityOffset := n, securitySize := tableSize)
  }

  lemma EntryBytes(offset: nat, size: nat)
    requires offset < 0x1_0000_0000 && size < 0x1_0000_0000
    ensures U32At(Le32(offset) + Le32(size), 0) == offset
    ensures U32At(Le32(offset) + Le32(size), 4) == size
  {
    hide Le32;
  }

  lemma RoundedInsideUnsigned(h: Header, s: seq<Section>, n: nat)
    requires h.Valid(n) && RoundedFits(h, s, n) && h.securitySize == 0
    ensures RoundedBeforeCertificate(h, s, n)
  {
  }

  /** Signing an accepted unsigned image: exactly when it is accepted again, and with the hash it had. */
  lemma SigningKeepsTheHash(blob: seq<Byte>, checksum: seq<Byte>, table: seq<Byte>, sha: seq<Byte> -> string)
    requires Accepted(blob, sha) && |checksum| == 4 && |table| > 0
    requires HeaderOf(blob).securityDirectory.Some? && HeaderOf(blob).securitySize == 0
    ensures
      var signed := Signed(blob, HeaderOf(blob), checksum, table);
      && (Accepted(signed, sha) <==> |blob| % 8 == 0 && |blob| + |table| <= MAX_PE_BYTES)
      && (Accepted(signed, sha) ==>
            && ImageHash(signed, sha) == ImageHash(blob, sha)
            && HeaderOf(signed) == SignedHeader(HeaderOf(blob), |blob|, |table|))
  {
    hide ParseHeader, CatalogStream, SectionedStream, Sections, RoundedFits, Laid, RoundedBeforeCertificate,
         SameHeaders, Rewritten, Le32, U32At;
    var h, n := HeaderOf(blob), |blob|;
    var signed := Signed(blob, h, checksum, table);
    RewrittenParts(blob, h, checksum, Le32(n) + Le32(|table|), n, table);
    if n + |table| <= MAX_PE_BYTES {
      EntryBytes(n, |table|);
      Reparse(blob, signed, h, n, |table|);
      if n % 8 == 0 {
        RoundedInsideUnsigned(h, Sections(blob, h), n);
        SharedContent(blob, signed, h, n, |table|, sha);
      }
    }
  }

  // ----- removing the signature

  /** The image with its terminal certificate table cut off and the directory entry zeroed. */
  function Stripped(blob: seq<Byte>, h: Header): seq<Byte>
    requires h.Valid(|blob|) && h.securitySize > 0
  {
    Rewritten(blob, h, blob[h.checksumOffset..h.checksumOffset + 4], Zeros(8), h.securityOffset, [])
  }

  lemma RoundedInsideStripped(h: Header, h': Header, s: seq<Section>, n: nat, n': nat)
    requires h.Valid(n) && h'.Valid(n') && RoundedFits(h', s, n') && n' == ContentEnd(h, n)
    requires h' == h.(securityOffset := 0, securitySize := 0)
    ensures RoundedBeforeCertificate(h, s, n)
  {
  }

  /**
   Stripping an accepted signed image keeps its hash whenever the result is accepted, which is exactly when no
   rounded section reached into the certificate table.
   */
  lemma StrippingKeepsTheHash(blob: seq<Byte>, sha: seq<Byte> -> string)
    requires Accepted(blob, sha) && HeaderOf(blob).securitySize > 0
    ensures
      var (h, stripped) := (HeaderOf(blob), Stripped(blob, HeaderOf(blob)));
      && (Accepted(stripped, sha) <==> RoundedBeforeCertificate(h, Sections(blob, h), |blob|))
      && (Accepted(stripped, sha) ==> ImageHash(stripped, sha) == ImageHash(blob, sha))
  {
    hide ParseHeader, CatalogStream, SectionedStream, Sections, RoundedFits, Laid, RoundedBeforeCertificate,
         SameHeaders, Rewritten, Zeros;
    var h := HeaderOf(blob);
    var stripped := Stripped(blob, h);
    RewrittenParts(blob, h, blob[h.checksumOffset..h.checksumOffset + 4], Zeros(8), h.securityOffset, []);
    ZeroEntry();
    SharedContent(blob, stripped, h, 0, 0, sha);
    if Accepted(stripped, sha) {
      SameParts(blob, h, stripped, HeaderOf(stripped));
      SameSections(blob, stripped, h, HeaderOf(stripped));
      RoundedInsideStripped(h, HeaderOf(stripped), Sections(blob, h), |blob|, |stripped|);
    }
  }

  lemma ZeroEntry()
    ensures U32At(Zeros(8), 0) == 0 && U32At(Zeros(8), 4) == 0
  {
  }

  /** Stripping undoes signing, byte for byte, when the signer kept CheckSum. */
  lemma StrippingUndoesSigning(blob: seq<Byte>, h: Header, table: seq<Byte>)
    requires ParseHeader(blob) == Success(h) && h.securityDirectory.Some? && h.securitySize == 0
    requires |table| > 0 && |blob| % 8 == 0 && |blob| + |table| <= MAX_PE_BYTES
    ensures
      var signed := Signed(blob, h, blob[h.checksumOffset..h.checksumOffset + 4], table);
      && ParseHeader(signed) == Success(SignedHeader(h, |blob|, |table|))
      && SignedHeader(h, |blob|, |table|).Valid(|signed|)
      && Stripped(signed, SignedHeader(h, |blob|, |table|)) == blob
  {
    hide ParseHeader, Rewritten, Le32, SameHeaders;
    var n, ck, e := |blob|, h.checksumOffset, h.securityDirectory.value;
    var kept := blob[ck..ck + 4];
    var signed, h' := Signed(blob, h, kept, table), SignedHeader(h, n, |table|);
    RewrittenParts(blob, h, kept, Le32(n) + Le32(|table|), n, table);
    EntryBytes(n, |table|);
    Reparse(blob, signed, h, n, |table|);
    RewrittenAt(blob, h, kept, Le32(n) + Le32(|table|), n, table);
    RewrittenAt(signed, h', signed[ck..ck + 4], Zeros(8), n, []);
    SecurityEntry(blob, h);
    ZeroFields(blob, e);
    var stripped := Stripped(signed, h');
    assert forall p :: 0 <= p < n ==> stripped[p] == blob[p];
  }

  lemma ZeroFields(blob: seq<Byte>, e: nat)
    requires e + 8 <= |blob| && U32At(blob, e) == 0 && U32At(blob, e + 4) == 0
    ensures forall p :: e <= p < e + 8 ==> blob[p] == 0
  {
  }
}
