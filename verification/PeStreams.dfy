/**
 The byte streams fed to the three image digests, as selections from the file.  They are generic in the
 element type, so that the same definitions, applied to the list of file positions, say *which* bytes a
 digest covers and in what order.
 */
module PeStreams {
  import opened Wrappers
  import opened Bytes
  import opened Alignment
  import opened PeHeader

  function Total(t: seq<Section>): nat {
    if t == [] then 0 else Total(t[..|t| - 1]) + t[|t| - 1].rawSize
  }

  /** Each section's raw size rounded up to FileAlignment. */
  function Aligned(s: seq<Section>, fileAlignment: nat): (t: seq<Section>)
    requires fileAlignment > 0
    ensures |t| == |s|
  {
    if s == [] then []
    else Aligned(s[..|s| - 1], fileAlignment) + [RoundUp(s[|s| - 1], fileAlignment)]
  }

  function RoundUp(section: Section, fileAlignment: nat): Section
    requires fileAlignment > 0
  {
    Section(section.rawOffset, AlignUp(section.rawSize, fileAlignment))
  }

  lemma {:induction false} AlignedAt(s: seq<Section>, fileAlignment: nat, i: nat)
    requires AcceptedAlignment(fileAlignment) && i < |s|
    ensures Aligned(s, fileAlignment)[i] == RoundUp(s[i], fileAlignment)
    ensures Aligned(s, fileAlignment)[i].rawOffset == s[i].rawOffset
    ensures Aligned(s, fileAlignment)[i].rawSize >= s[i].rawSize
  {
    RoundingLengthens(s[i].rawSize, fileAlignment);
    if i < |s| - 1 {
      AlignedAt(s[..|s| - 1], fileAlignment, i);
    }
  }

  lemma RoundedStarts(s: seq<Section>, fileAlignment: nat)
    requires AcceptedAlignment(fileAlignment)
    ensures
      var t := Aligned(s, fileAlignment);
      forall i :: 0 <= i < |t| ==> t[i].rawOffset == s[i].rawOffset && t[i].rawSize >= s[i].rawSize
  {
    forall i | 0 <= i < |s|
      ensures Aligned(s, fileAlignment)[i].rawOffset == s[i].rawOffset
      ensures Aligned(s, fileAlignment)[i].rawSize >= s[i].rawSize
    {
      AlignedAt(s, fileAlignment, i);
    }
  }

  /** Sections in file order, after the headers, inside the file and pairwise disjoint. */
  ghost predicate Laid(t: seq<Section>, start: nat, n: nat) {
    && (forall i :: 0 <= i < |t| ==> t[i].rawSize > 0 && start <= t[i].rawOffset && t[i].End() <= n)
    && (forall i, j :: 0 <= i < j < |t| ==> t[i].End() <= t[j].rawOffset)
  }

  /** The certificate table, if any, ends the file and follows every section. */
  ghost predicate CertificateLast(h: Header, s: seq<Section>, n: nat) {
    h.securitySize > 0 ==>
      h.securityOffset + h.securitySize == n && forall i :: 0 <= i < |s| ==> s[i].End() <= h.securityOffset
  }

  /** The structural checks made before the first digest. */
  ghost predicate Structural(h: Header, s: seq<Section>, n: nat) {
    h.Valid(n) && Laid(s, h.sizeOfHeaders, n) && CertificateLast(h, s, n)
  }

  predicate InFile(x: Section, start: nat, n: nat) {
    start <= x.rawOffset && x.End() <= n
  }

  /** The checks made while the rounded sections are hashed. */
  ghost predicate RoundedFits(h: Header, s: seq<Section>, n: nat)
    requires h.fileAlignment > 0
  {
    var t := Aligned(s, h.fileAlignment);
    Laid(t, h.sizeOfHeaders, n) && h.sizeOfHeaders + Total(t) + h.securitySize <= n
  }

  /** Every section starts where the headers or the previous section stop. */
  ghost predicate Gapless(t: seq<Section>, start: nat) {
    forall i {:trigger StopBefore(t, i, start)} :: 0 <= i < |t| ==> t[i].rawOffset == StopBefore(t, i, start)
  }

  function StopBefore(t: seq<Section>, i: nat, start: nat): nat
    requires i < |t|
  {
    if i == 0 then start else t[i - 1].End()
  }

  function ContentEnd(h: Header, n: nat): nat
    requires h.Valid(n)
  {
    n - h.securitySize
  }

  /** Headers without CheckSum and without the security-directory entry. */
  function HeaderPart<T>(f: seq<T>, h: Header): seq<T>
    requires h.Valid(|f|)
  {
    match h.securityDirectory
    case None => f[0..h.checksumOffset] + f[h.checksumOffset + 4..h.sizeOfHeaders]
    case Some(entry) =>
      f[0..h.checksumOffset] + f[h.checksumOffset + 4..entry] + f[entry + 8..h.sizeOfHeaders]
  }

  function Body<T>(f: seq<T>, t: seq<Section>): (r: seq<T>)
    requires forall i :: 0 <= i < |t| ==> t[i].End() <= |f|
    ensures |r| == Total(t)
  {
    if t == [] then []
    else
      var last := t[|t| - 1];
      assert last.End() <= |f|;
      Body(f, t[..|t| - 1]) + f[last.rawOffset..last.End()]
  }

  /** The layout behind the pinned Microsoft list: the whole file without the three excluded ranges. */
  function CatalogStream<T>(f: seq<T>, h: Header): seq<T>
    requires h.Valid(|f|) && (h.securitySize > 0 ==> h.securityOffset + h.securitySize == |f|)
  {
    match h.securityDirectory
    case None => f[0..h.checksumOffset] + f[h.checksumOffset + 4..|f|]
    case Some(entry) =>
      if h.securitySize > 0 then
        f[0..h.checksumOffset] + f[h.checksumOffset + 4..entry] + f[entry + 8..h.securityOffset]
        + f[h.securityOffset + h.securitySize..|f|]
      else
        f[0..h.checksumOffset] + f[h.checksumOffset + 4..entry] + f[entry + 8..|f|]
  }

  /** Headers, sections in file order, then whatever the running sum says is left before the certificate. */
  function SectionedStream<T>(f: seq<T>, h: Header, t: seq<Section>): seq<T>
    requires h.Valid(|f|) && forall i :: 0 <= i < |t| ==> t[i].End() <= |f|
    requires h.sizeOfHeaders + Total(t) + h.securitySize <= |f|
  {
    HeaderPart(f, h) + Body(f, t) + f[h.sizeOfHeaders + Total(t)..ContentEnd(h, |f|)]
  }

  function LastEnd(t: seq<Section>, start: nat): nat {
    if t == [] then start else t[|t| - 1].End()
  }

  lemma LaidPrefix(t: seq<Section>, start: nat, n: nat)
    requires Laid(t, start, n) && t != []
    ensures Laid(t[..|t| - 1], start, n)
    ensures LastEnd(t[..|t| - 1], start) <= t[|t| - 1].rawOffset
  {
    var front := t[..|t| - 1];
    assert forall i :: 0 <= i < |front| ==> front[i] == t[i];
  }

  /** Disjoint sections cannot claim more bytes than the space they span. */
  lemma {:induction false} TotalWithinSpan(t: seq<Section>, start: nat, n: nat)
    requires Laid(t, start, n)
    ensures start + Total(t) <= LastEnd(t, start)
  {
    if t != [] {
      LaidPrefix(t, start, n);
      TotalWithinSpan(t[..|t| - 1], start, n);
    }
  }

  /** So the reference layout's own size guard (531-532) cannot fire, nor can the one at 490-491. */
  lemma StructuralFits(h: Header, s: seq<Section>, n: nat)
    requires Structural(h, s, n)
    ensures h.sizeOfHeaders + Total(s) + h.securitySize <= n
    ensures h.securitySize > 0 && h.securityDirectory.Some? ==>
      h.securityDirectory.value + 8 <= h.securityOffset
  {
    TotalWithinSpan(s, h.sizeOfHeaders, n);
  }

  lemma CatalogSplit<T>(f: seq<T>, h: Header)
    requires h.Valid(|f|) && (h.securitySize > 0 ==> h.securityOffset + h.securitySize == |f|)
    ensures h.sizeOfHeaders <= ContentEnd(h, |f|) <= |f|
    ensures CatalogStream(f, h) == HeaderPart(f, h) + f[h.sizeOfHeaders..ContentEnd(h, |f|)]
  {
    hide AcceptedAlignment;
    var ck, soh, end := h.checksumOffset, h.sizeOfHeaders, ContentEnd(h, |f|);
    match h.securityDirectory
    case None =>
      GlueTail(f, f[0..ck], ck + 4, soh, end);
    case Some(entry) =>
      GlueTail(f, f[0..ck] + f[ck + 4..entry], entry + 8, soh, end);
      AppendNothing(f, f[0..ck] + f[ck + 4..entry] + f[entry + 8..end]);
  }

  lemma AppendNothing<T>(f: seq<T>, a: seq<T>)
    ensures a + f[|f|..|f|] == a
  {
  }

  function FedLength(h: Header, n: nat): int {
    n - h.securitySize - 4 - (if h.securityDirectory.Some? then 8 else 0)
  }

  lemma CatalogLength<T>(f: seq<T>, h: Header)
    requires h.Valid(|f|) && (h.securitySize > 0 ==> h.securityOffset + h.securitySize == |f|)
    ensures |CatalogStream(f, h)| == FedLength(h, |f|)
  {
  }

  lemma SectionedLength<T>(f: seq<T>, h: Header, t: seq<Section>)
    requires h.Valid(|f|) && forall i :: 0 <= i < |t| ==> t[i].End() <= |f|
    requires h.sizeOfHeaders + Total(t) + h.securitySize <= |f|
    ensures |SectionedStream(f, h, t)| == FedLength(h, |f|)
  {
    assert |HeaderPart(f, h)| == h.sizeOfHeaders - 4 - if h.securityDirectory.Some? then 8 else 0;
  }

  /** Every layout feeds the same number of bytes, gaps or not: a gap is made up for at the end. */
  lemma StreamLengths<T>(f: seq<T>, h: Header, s: seq<Section>)
    requires Structural(h, s, |f|) && RoundedFits(h, s, |f|)
    ensures h.sizeOfHeaders + Total(s) + h.securitySize <= |f|
    ensures |CatalogStream(f, h)| == FedLength(h, |f|)
    ensures |SectionedStream(f, h, s)| == FedLength(h, |f|)
    ensures |SectionedStream(f, h, Aligned(s, h.fileAlignment))| == FedLength(h, |f|)
  {
    StructuralFits(h, s, |f|);
    CatalogLength(f, h);
    SectionedLength(f, h, s);
    SectionedLength(f, h, Aligned(s, h.fileAlignment));
  }

  lemma SliceJoin<T>(f: seq<T>, a: nat, b: nat, c: nat)
    requires a <= b <= c <= |f|
    ensures f[a..b] + f[b..c] == f[a..c]
  {
  }

  lemma GaplessPrefix(t: seq<Section>, start: nat)
    requires Gapless(t, start) && t != []
    ensures Gapless(t[..|t| - 1], start)
    ensures t[|t| - 1].rawOffset == LastEnd(t[..|t| - 1], start)
  {
    var front := t[..|t| - 1];
    assert t[|t| - 1].rawOffset == StopBefore(t, |t| - 1, start);
    forall i | 0 <= i < |front| ensures front[i].rawOffset == StopBefore(front, i, start) {
      assert t[i].rawOffset == StopBefore(t, i, start);
    }
  }

  lemma {:induction false} GaplessBody<T>(f: seq<T>, t: seq<Section>, start: nat)
    requires (forall i :: 0 <= i < |t| ==> t[i].End() <= |f|) && Gapless(t, start) && start <= |f|
    ensures start + Total(t) == LastEnd(t, start) <= |f|
    ensures Body(f, t) == f[start..LastEnd(t, start)]
  {
    if t != [] {
      var front, last := t[..|t| - 1], t[|t| - 1];
      GaplessPrefix(t, start);
      GaplessBody(f, front, start);
      assert last.End() <= |f|;
      SliceJoin(f, start, last.rawOffset, last.End());
    }
  }

  lemma GaplessStream<T>(f: seq<T>, h: Header, t: seq<Section>)
    requires h.Valid(|f|) && (h.securitySize > 0 ==> h.securityOffset + h.securitySize == |f|)
    requires forall i :: 0 <= i < |t| ==> t[i].End() <= |f|
    requires h.sizeOfHeaders + Total(t) + h.securitySize <= |f| && Gapless(t, h.sizeOfHeaders)
    ensures SectionedStream(f, h, t) == CatalogStream(f, h)
  {
    hide *;
    CatalogSplit(f, h);
    GaplessBody(f, t, h.sizeOfHeaders);
    SectionedParts(f, h, t);
    GlueTail(f, HeaderPart(f, h), h.sizeOfHeaders, h.sizeOfHeaders + Total(t), ContentEnd(h, |f|));
  }

  lemma SectionedParts<T>(f: seq<T>, h: Header, t: seq<Section>)
    requires h.Valid(|f|) && forall i :: 0 <= i < |t| ==> t[i].End() <= |f|
    requires h.sizeOfHeaders + Total(t) + h.securitySize <= |f|
    ensures h.sizeOfHeaders + Total(t) <= ContentEnd(h, |f|) <= |f|
    ensures SectionedStream(f, h, t) ==
      HeaderPart(f, h) + Body(f, t) + f[h.sizeOfHeaders + Total(t)..ContentEnd(h, |f|)]
  {
    hide HeaderPart, Body, Total;
  }

  lemma GlueTail<T>(f: seq<T>, head: seq<T>, a: nat, b: nat, c: nat)
    requires a <= b <= c <= |f|
    ensures head + f[a..b] + f[b..c] == head + f[a..c]
  {
  }

  /** When nothing is left between sections, rounding only lengthens the last one, into bytes hashed next anyway. */
  lemma GaplessRounded(h: Header, s: seq<Section>, n: nat)
    requires Structural(h, s, n) && RoundedFits(h, s, n) && Gapless(s, h.sizeOfHeaders)
    ensures Gapless(Aligned(s, h.fileAlignment), h.sizeOfHeaders)
  {
    hide Aligned, AlignUp, RoundUp, Total;
    var t := Aligned(s, h.fileAlignment);
    forall i | 0 <= i < |t| ensures t[i].rawOffset == StopBefore(t, i, h.sizeOfHeaders) {
      assert s[i].rawOffset == StopBefore(s, i, h.sizeOfHeaders);
      AlignedAt(s, h.fileAlignment, i);
      if i > 0 {
        AlignedAt(s, h.fileAlignment, i - 1);
        assert t[i - 1].End() <= t[i].rawOffset;
      }
    }
  }

  lemma RoundingLengthens(size: nat, fileAlignment: nat)
    requires AcceptedAlignment(fileAlignment)
    ensures size <= AlignUp(size, fileAlignment)
  {
    PowerOfTwoTest(fileAlignment);
    AlignUpIsLeast(size, fileAlignment);
  }

  /** Sections that leave no gap after the headers make the three layouts one byte sequence. */
  lemma GaplessLayoutsAgree<T>(f: seq<T>, h: Header, s: seq<Section>)
    requires Structural(h, s, |f|) && RoundedFits(h, s, |f|) && Gapless(s, h.sizeOfHeaders)
    ensures h.sizeOfHeaders + Total(s) + h.securitySize <= |f|
    ensures SectionedStream(f, h, s) == CatalogStream(f, h)
    ensures SectionedStream(f, h, Aligned(s, h.fileAlignment)) == CatalogStream(f, h)
  {
    StructuralFits(h, s, |f|);
    GaplessStream(f, h, s);
    GaplessRounded(h, s, |f|);
    GaplessStream(f, h, Aligned(s, h.fileAlignment));
  }

  // ----- which file positions are covered

  function Positions(n: nat): (ids: seq<nat>)
    ensures |ids| == n && forall i :: 0 <= i < n ==> ids[i] == i
  {
    seq(n, i => i)
  }

  ghost predicate Excluded(h: Header, p: nat) {
    || h.checksumOffset <= p < h.checksumOffset + 4
    || (h.securityDirectory.Some? && h.securityDirectory.value <= p < h.securityDirectory.value + 8)
    || h.securityOffset <= p < h.securityOffset + h.securitySize
  }

  /** The position behind place `k` of the catalog stream. */
  function CatalogPosition(h: Header, k: nat): nat {
    if k < h.checksumOffset then k
    else if h.securityDirectory.Some? && k + 4 >= h.securityDirectory.value then k + 12
    else k + 4
  }

  lemma CatalogPlaces(h: Header, n: nat, k: nat)
    requires h.Valid(n) && (h.securitySize > 0 ==> h.securityOffset + h.securitySize == n)
    requires k < |CatalogStream(Positions(n), h)|
    ensures CatalogStream(Positions(n), h)[k] == CatalogPosition(h, k)
  {
    var ids, ck, end := Positions(n), h.checksumOffset, ContentEnd(h, n);
    match h.securityDirectory
    case None =>
    case Some(entry) =>
      assert CatalogStream(ids, h) == ids[0..ck] + ids[ck + 4..entry] + ids[entry + 8..end];
      InThreeParts(ids[0..ck], ids[ck + 4..entry], ids[entry + 8..end], k);
  }

  lemma InThreeParts<T>(a: seq<T>, b: seq<T>, c: seq<T>, k: nat)
    requires k < |a| + |b| + |c|
    ensures (a + b + c)[k] ==
      if k < |a| then a[k] else if k < |a| + |b| then b[k - |a|] else c[k - |a| - |b|]
  {
  }

  /** The catalog layout hashes each byte outside the excluded ranges exactly once, in file order. */
  lemma CatalogCoversTheRest(h: Header, n: nat)
    requires h.Valid(n) && (h.securitySize > 0 ==> h.securityOffset + h.securitySize == n)
    ensures
      var covered := CatalogStream(Positions(n), h);
      && (forall i, j :: 0 <= i < j < |covered| ==> covered[i] < covered[j])
      && (forall p: nat :: p in covered <==> p < n && !Excluded(h, p))
  {
    var covered := CatalogStream(Positions(n), h);
    CatalogSplit(Positions(n), h);
    forall k | 0 <= k < |covered| ensures covered[k] == CatalogPosition(h, k) {
      CatalogPlaces(h, n, k);
    }
    forall p: nat | p < n && !Excluded(h, p) ensures p in covered {
      var k := if p < h.checksumOffset then p
               else if h.securityDirectory.Some? && p >= h.securityDirectory.value then p - 12
               else p - 4;
      assert CatalogPosition(h, k) == p && k < |covered|;
      assert covered[k] == p;
    }
  }

  lemma {:induction false} BodySplit<T>(f: seq<T>, t: seq<Section>, k: nat)
    requires k <= |t| && forall i :: 0 <= i < |t| ==> t[i].End() <= |f|
    ensures Total(t[..k]) <= Total(t)
    ensures Body(f, t)[..Total(t[..k])] == Body(f, t[..k])
  {
    if k == |t| {
      assert t[..k] == t;
    } else {
      var front := t[..|t| - 1];
      assert front[..k] == t[..k];
      BodySplit(f, front, k);
    }
  }

  /** Section `k` is fed right after the bytes of the sections before it. */
  lemma BodyAtSection<T>(f: seq<T>, t: seq<Section>, k: nat, o: nat)
    requires k < |t| && forall i :: 0 <= i < |t| ==> t[i].End() <= |f|
    requires o < t[k].rawSize
    ensures Total(t[..k]) + o < Total(t)
    ensures Body(f, t)[Total(t[..k]) + o] == f[t[k].rawOffset + o]
  {
    hide Body, Total;
    BodyUpTo(f, t, k);
    InsidePrefix(Body(f, t), Body(f, t[..k]), f[t[k].rawOffset..t[k].End()], o);
  }

  lemma BodyUpTo<T>(f: seq<T>, t: seq<Section>, k: nat)
    requires k < |t| && forall i :: 0 <= i < |t| ==> t[i].End() <= |f|
    ensures t[k].End() <= |f| && Total(t[..k]) + t[k].rawSize <= Total(t)
    ensures Body(f, t)[..Total(t[..k]) + t[k].rawSize] == Body(f, t[..k]) + f[t[k].rawOffset..t[k].End()]
  {
    hide Body, Total;
    BodySplit(f, t, k + 1);
    OneMoreSection(f, t[..k], t[k]);
    assert t[..k + 1] == t[..k] + [t[k]];
  }

  lemma OneMoreSection<T>(f: seq<T>, front: seq<Section>, last: Section)
    requires (forall i :: 0 <= i < |front| ==> front[i].End() <= |f|) && last.End() <= |f|
    ensures Total(front + [last]) == Total(front) + last.rawSize
    ensures Body(f, front + [last]) == Body(f, front) + f[last.rawOffset..last.End()]
  {
    assert (front + [last])[..|front|] == front;
  }

  lemma InsidePrefix<T>(whole: seq<T>, front: seq<T>, span: seq<T>, o: nat)
    requires |front| + |span| <= |whole| && whole[..|front| + |span|] == front + span && o < |span|
    ensures whole[|front| + o] == span[o]
  {
    assert whole[..|front| + |span|][|front| + o] == (front + span)[|front| + o];
  }

  /** If the first `k` sections leave no gap and the streams name the same positions, section `k` leaves none. */
  lemma NextSectionFollows(h: Header, t: seq<Section>, n: nat, k: nat)
    requires h.Valid(n) && (h.securitySize > 0 ==> h.securityOffset + h.securitySize == n)
    requires Laid(t, h.sizeOfHeaders, n) && h.sizeOfHeaders + Total(t) + h.securitySize <= n
    requires k < |t| && Gapless(t[..k], h.sizeOfHeaders)
    requires SectionedStream(Positions(n), h, t) == CatalogStream(Positions(n), h)
    ensures t[k].rawOffset == StopBefore(t, k, h.sizeOfHeaders)
  {
    hide SectionedStream, CatalogStream, Body, Total;
    var ids, soh, before := Positions(n), h.sizeOfHeaders, t[..k];
    assert forall i :: 0 <= i < k ==> before[i] == t[i];
    GaplessBody(ids, before, soh);
    BodyAtSection(ids, t, k, 0);
    BodyIsRest(h, t, n);
    var at, body, span := Total(before), Body(ids, t), ids[soh..ContentEnd(h, n)];
    assert body[at] == span[at] by {
      assert body == span[..|body|];
    }
    assert span[at] == soh + at;
  }

  lemma BodyIsRest(h: Header, t: seq<Section>, n: nat)
    requires h.Valid(n) && (h.securitySize > 0 ==> h.securityOffset + h.securitySize == n)
    requires forall i :: 0 <= i < |t| ==> t[i].End() <= n
    requires h.sizeOfHeaders + Total(t) + h.securitySize <= n
    requires SectionedStream(Positions(n), h, t) == CatalogStream(Positions(n), h)
    ensures Total(t) <= ContentEnd(h, n) - h.sizeOfHeaders
    ensures Body(Positions(n), t) == Positions(n)[h.sizeOfHeaders..ContentEnd(h, n)][..Total(t)]
  {
    hide *;
    var ids, soh, end := Positions(n), h.sizeOfHeaders, ContentEnd(h, n);
    CatalogSplit(ids, h);
    SectionedParts(ids, h, t);
    MiddlePart(HeaderPart(ids, h), Body(ids, t), ids[soh + Total(t)..end], ids[soh..end]);
  }

  lemma MiddlePart<T>(a: seq<T>, b: seq<T>, c: seq<T>, d: seq<T>)
    requires a + b + c == a + d
    ensures |b| <= |d| && b == d[..|b|]
  {
    assert |d| == |b| + |c|;
    assert d == (a + d)[|a|..];
    assert b == (a + b + c)[|a|..|a| + |b|];
  }

  lemma {:induction false} SamePositionsLeaveNoGap(h: Header, t: seq<Section>, n: nat, k: nat)
    requires h.Valid(n) && (h.securitySize > 0 ==> h.securityOffset + h.securitySize == n)
    requires Laid(t, h.sizeOfHeaders, n) && h.sizeOfHeaders + Total(t) + h.securitySize <= n
    requires k <= |t|
    requires SectionedStream(Positions(n), h, t) == CatalogStream(Positions(n), h)
    ensures Gapless(t[..k], h.sizeOfHeaders)
  {
    if k > 0 {
      SamePositionsLeaveNoGap(h, t, n, k - 1);
      NextSectionFollows(h, t, n, k - 1);
      var soh := h.sizeOfHeaders;
      forall i | 0 <= i < k ensures t[..k][i].rawOffset == StopBefore(t[..k], i, soh) {
        if i < k - 1 {
          assert t[..k - 1][i].rawOffset == StopBefore(t[..k - 1], i, soh);
        }
      }
    }
  }

  /** The two layouts name the same positions in the same order if and only if there is no gap. */
  lemma SamePositionsIffGapless(h: Header, t: seq<Section>, n: nat)
    requires h.Valid(n) && (h.securitySize > 0 ==> h.securityOffset + h.securitySize == n)
    requires Laid(t, h.sizeOfHeaders, n) && h.sizeOfHeaders + Total(t) + h.securitySize <= n
    ensures SectionedStream(Positions(n), h, t) == CatalogStream(Positions(n), h)
      <==> Gapless(t, h.sizeOfHeaders)
  {
    if Gapless(t, h.sizeOfHeaders) {
      GaplessStream(Positions(n), h, t);
    }
    if SectionedStream(Positions(n), h, t) == CatalogStream(Positions(n), h) {
      SamePositionsLeaveNoGap(h, t, n, |t|);
      assert t[..|t|] == t;
    }
  }

  // ----- a stream holds, place by place, the bytes at the positions it names

  ghost predicate ReadFrom<T>(f: seq<T>, positions: seq<nat>, values: seq<T>) {
    |values| == |positions| && forall k :: 0 <= k < |positions| ==> positions[k] < |f| && values[k] == f[positions[k]]
  }

  lemma ReadSlice<T>(f: seq<T>, a: nat, b: nat)
    requires a <= b <= |f|
    ensures ReadFrom(f, Positions(|f|)[a..b], f[a..b])
  {
  }

  lemma ReadBoth<T>(f: seq<T>, p: seq<nat>, v: seq<T>, q: seq<nat>, w: seq<T>)
    requires ReadFrom(f, p, v) && ReadFrom(f, q, w)
    ensures ReadFrom(f, p + q, v + w)
  {
  }

  lemma {:induction false} BodyRead<T>(f: seq<T>, t: seq<Section>)
    requires forall i :: 0 <= i < |t| ==> t[i].End() <= |f|
    ensures ReadFrom(f, Body(Positions(|f|), t), Body(f, t))
  {
    if t != [] {
      var ids, front, last := Positions(|f|), t[..|t| - 1], t[|t| - 1];
      assert last.End() <= |f|;
      BodyRead(f, front);
      ReadSlice(f, last.rawOffset, last.End());
      ReadBoth(f, Body(ids, front), Body(f, front),
               ids[last.rawOffset..last.End()], f[last.rawOffset..last.End()]);
    }
  }

  lemma HeaderRead<T>(f: seq<T>, h: Header)
    requires h.Valid(|f|)
    ensures ReadFrom(f, HeaderPart(Positions(|f|), h), HeaderPart(f, h))
  {
    hide ReadFrom;
    var ids, ck, soh := Positions(|f|), h.checksumOffset, h.sizeOfHeaders;
    match h.securityDirectory
    case None => ReadTwo(f, 0, ck, ck + 4, soh);
    case Some(entry) =>
      ReadTwo(f, 0, ck, ck + 4, entry);
      ReadSlice(f, entry + 8, soh);
      ReadBoth(f, ids[0..ck] + ids[ck + 4..entry], f[0..ck] + f[ck + 4..entry],
               ids[entry + 8..soh], f[entry + 8..soh]);
  }

  lemma ReadTwo<T>(f: seq<T>, a: nat, b: nat, c: nat, d: nat)
    requires a <= b <= |f| && c <= d <= |f|
    ensures ReadFrom(f, Positions(|f|)[a..b] + Positions(|f|)[c..d], f[a..b] + f[c..d])
  {
    var ids := Positions(|f|);
    ReadSlice(f, a, b);
    ReadSlice(f, c, d);
    ReadBoth(f, ids[a..b], f[a..b], ids[c..d], f[c..d]);
  }

  lemma SectionedRead<T>(f: seq<T>, h: Header, t: seq<Section>)
    requires h.Valid(|f|) && forall i :: 0 <= i < |t| ==> t[i].End() <= |f|
    requires h.sizeOfHeaders + Total(t) + h.securitySize <= |f|
    ensures ReadFrom(f, SectionedStream(Positions(|f|), h, t), SectionedStream(f, h, t))
  {
    hide *;
    SectionedParts(f, h, t);
    SectionedParts(Positions(|f|), h, t);
    var ids, a, b := Positions(|f|), h.sizeOfHeaders + Total(t), ContentEnd(h, |f|);
    HeaderRead(f, h);
    BodyRead(f, t);
    ReadSlice(f, a, b);
    ReadBoth(f, HeaderPart(ids, h), HeaderPart(f, h), Body(ids, t), Body(f, t));
    ReadBoth(f, HeaderPart(ids, h) + Body(ids, t), HeaderPart(f, h) + Body(f, t), ids[a..b], f[a..b]);
  }

  lemma CatalogRead<T>(f: seq<T>, h: Header)
    requires h.Valid(|f|) && (h.securitySize > 0 ==> h.securityOffset + h.securitySize == |f|)
    ensures ReadFrom(f, CatalogStream(Positions(|f|), h), CatalogStream(f, h))
  {
    hide *;
    var ids, a, b := Positions(|f|), h.sizeOfHeaders, ContentEnd(h, |f|);
    CatalogSplit(f, h);
    CatalogSplit(ids, h);
    HeaderRead(f, h);
    ReadSlice(f, a, b);
    ReadBoth(f, HeaderPart(ids, h), HeaderPart(f, h), ids[a..b], f[a..b]);
  }
}
