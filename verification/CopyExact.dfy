/** `copy_exact` of isopropyl/backup.py: an exact copy through short reads, optionally leaving holes for zeros. */
module CopyExact {
  import opened Bytes

  const BLOCK_SIZE: nat := 4194304

  datatype ReadResult = Block(bytes: seq<Byte>) | ReadError

  /** The captured drive as a stream: reads may be short, or fail, but return nothing only at the end. */
  class Source {
    const data: seq<Byte>
    /** No read fails. */
    const reliable: bool
    var position: nat

    ghost predicate Valid()
      reads this
    {
      position <= |data|
    }

    method Read(limit: nat) returns (r: ReadResult)
      requires Valid() && limit > 0
      modifies this
      ensures Valid()
      ensures r.Block? ==>
        && |r.bytes| <= limit && position == old(position) + |r.bytes|
        && r.bytes == data[old(position)..position]
        && (r.bytes == [] ==> position == |data|)
      ensures r.ReadError? ==> position == old(position) && !reliable
    {
      var fails: bool := *;
      if fails && !reliable {
        return ReadError;
      }
      var left := |data| - position;
      var most := if limit < left then limit else left;
      var pick: int := *;
      var count := if pick > most then most else if pick <= 0 then (if most > 0 then 1 else 0) else pick;
      r := Block(data[position..position + count]);
      position := position + count;
    }
  }

  /** A file's contents after writing `block` at `at`; a write past the end leaves zeros in between. */
  function Overwrite(contents: seq<Byte>, at: nat, block: seq<Byte>): (r: seq<Byte>)
    ensures |r| == if at + |block| > |contents| then at + |block| else |contents|
    ensures forall p :: 0 <= p < |r| ==>
      r[p] == if at <= p < at + |block| then block[p - at] else if p < |contents| then contents[p] else 0
  {
    var padded := Extend(contents, at + |block|);
    padded[..at] + block + padded[at + |block|..]
  }

  function Extend(contents: seq<Byte>, size: nat): (r: seq<Byte>)
    ensures |r| == if size > |contents| then size else |contents|
    ensures forall p :: 0 <= p < |r| ==> r[p] == if p < |contents| then contents[p] else 0
  {
    if size > |contents| then contents + Zeros(size - |contents|) else contents
  }

  /** The destination file: a seek past the end changes nothing until something is written or truncated. */
  class Target {
    var contents: seq<Byte>
    var position: nat
    /** No write and no truncation fails. */
    const reliable: bool

    constructor (contents: seq<Byte>, reliable: bool)
      ensures this.contents == contents && position == 0 && this.reliable == reliable
    {
      this.contents := contents;
      position := 0;
      this.reliable := reliable;
    }

    method SeekForward(count: nat)
      modifies this
      ensures contents == old(contents) && position == old(position) + count
    {
      position := position + count;
    }

    method Write(block: seq<Byte>) returns (ok: bool)
      modifies this
      ensures ok ==> contents == Overwrite(old(contents), old(position), block)
      ensures ok ==> position == old(position) + |block|
      ensures reliable ==> ok
    {
      ok := *;
      if ok || reliable {
        ok := true;
        contents := Overwrite(contents, position, block);
        position := position + |block|;
      } else {
        contents := *;
        position := *;
      }
    }

    method Truncate(size: nat) returns (ok: bool)
      modifies this`contents
      ensures ok ==> contents == Extend(old(contents), size)[..size]
      ensures reliable ==> ok
    {
      ok := *;
      if ok || reliable {
        ok := true;
        contents := Extend(contents, size)[..size];
      }
    }
  }

  datatype CopyResult = Copied | Cancelled | SourceEnded | IoError | CallbackError

  predicate AllZero(block: seq<Byte>) {
    forall i :: 0 <= i < |block| ==> block[i] == 0
  }

  /** The value at `p` of a file that held `before`, after a copy that skipped the marked positions. */
  function AfterCopy(before: seq<Byte>, data: seq<Byte>, skipped: seq<bool>, p: nat): Byte
    requires p < |data| && p < |skipped|
  {
    if !skipped[p] then data[p] else if p < |before| then before[p] else 0
  }

  /** Where block `k` starts, when the loop reported its progress after each block. */
  function BlockStart(reported: seq<nat>, k: nat): nat
    requires k < |reported|
  {
    if k == 0 then 0 else reported[k - 1]
  }

  /** Block `k` was left as a hole exactly if holes are wanted and it is all zero. */
  ghost predicate HoleDecided(data: seq<Byte>, skipped: seq<bool>, sparse: bool, reported: seq<nat>, k: nat)
    requires k < |reported|
  {
    && BlockStart(reported, k) < reported[k] <= |data| && reported[k] <= |skipped|
    && reported[k] - BlockStart(reported, k) <= BLOCK_SIZE
    && forall p :: BlockStart(reported, k) <= p < reported[k] ==>
         (skipped[p] <==> sparse && AllZero(data[BlockStart(reported, k)..reported[k]]))
  }

  ghost predicate HolesDecided(data: seq<Byte>, skipped: seq<bool>, sparse: bool, reported: seq<nat>) {
    forall k :: 0 <= k < |reported| ==> HoleDecided(data, skipped, sparse, reported, k)
  }

  lemma OneMoreBlock(
    data: seq<Byte>, skipped: seq<bool>, sparse: bool, reported: seq<nat>, block: seq<Byte>, hole: bool)
    requires HolesDecided(data, skipped, sparse, reported)
    requires |skipped| == if reported == [] then 0 else reported[|reported| - 1]
    requires 0 < |block| <= BLOCK_SIZE && |skipped| + |block| <= |data|
    requires block == data[|skipped|..|skipped| + |block|] && hole == (sparse && AllZero(block))
    ensures HolesDecided(data, skipped + seq(|block|, _ => hole), sparse, reported + [|skipped| + |block|])
  {
    hide AllZero;
    var marks, longer := skipped + seq(|block|, _ => hole), reported + [|skipped| + |block|];
    forall k | 0 <= k < |longer| ensures HoleDecided(data, marks, sparse, longer, k) {
      if k < |reported| {
        assert HoleDecided(data, skipped, sparse, reported, k);
      }
    }
  }

  ghost predicate Rising(values: seq<nat>, last: nat) {
    && (forall i, j :: 0 <= i < j < |values| ==> values[i] < values[j])
    && (forall i :: 0 <= i < |values| ==> 0 < values[i] <= last)
    && (if values == [] then last == 0 else values[|values| - 1] == last)
  }

  /** The destination after the first `|skipped|` bytes: written ones are the source's, the rest is untouched. */
  ghost predicate SoFar(
    before: seq<Byte>, contents: seq<Byte>, data: seq<Byte>, skipped: seq<bool>, sparse: bool)
  {
    && |skipped| <= |data|
    && |before| <= |contents|
    && (forall p :: 0 <= p < |skipped| && skipped[p] ==> sparse && data[p] == 0)
    && (forall p :: 0 <= p < |contents| ==>
          (contents[p] ==
            if p < |skipped| then AfterCopy(before, data, skipped, p)
            else if p < |before| then before[p] else 0))
    && (forall p :: |contents| <= p < |skipped| ==> skipped[p])
  }

  lemma SoFarSkips(
    before: seq<Byte>, contents: seq<Byte>, data: seq<Byte>, skipped: seq<bool>, sparse: bool, marks: seq<bool>)
    requires SoFar(before, contents, data, skipped, sparse)
    requires |skipped| <= |marks| <= |data| && marks[..|skipped|] == skipped
    requires forall p :: |skipped| <= p < |marks| ==> marks[p] && sparse && data[p] == 0
    ensures SoFar(before, contents, data, marks, sparse)
  {
    forall p | 0 <= p < |contents| && p < |marks|
      ensures AfterCopy(before, data, marks, p) == contents[p]
    {
      if p < |skipped| {
        assert marks[p] == marks[..|skipped|][p] == skipped[p];
        assert AfterCopy(before, data, skipped, p) == contents[p];
      }
    }
    assert forall p :: 0 <= p < |skipped| ==> marks[p] == marks[..|skipped|][p];
  }

  lemma SoFarWrites(
    before: seq<Byte>, contents: seq<Byte>, after: seq<Byte>, data: seq<Byte>, skipped: seq<bool>, sparse: bool,
    marks: seq<bool>)
    requires SoFar(before, contents, data, skipped, sparse)
    requires |skipped| <= |marks| <= |data| && marks[..|skipped|] == skipped
    requires forall p :: |skipped| <= p < |marks| ==> !marks[p]
    requires after == Overwrite(contents, |skipped|, data[|skipped|..|marks|])
    ensures SoFar(before, after, data, marks, sparse)
  {
    hide Overwrite, Extend;
    assert forall p :: 0 <= p < |skipped| ==> marks[p] == marks[..|skipped|][p] == skipped[p];
  }

  lemma SoFarGrows(
    before: seq<Byte>, contents: seq<Byte>, after: seq<Byte>, data: seq<Byte>, skipped: seq<bool>, sparse: bool,
    block: seq<Byte>, hole: bool)
    requires SoFar(before, contents, data, skipped, sparse)
    requires |skipped| + |block| <= |data| && block == data[|skipped|..|skipped| + |block|]
    requires hole ==> sparse && AllZero(block)
    requires after == if hole then contents else Overwrite(contents, |skipped|, block)
    ensures SoFar(before, after, data, skipped + seq(|block|, _ => hole), sparse)
  {
    hide SoFar, Overwrite, Extend;
    var marks := skipped + seq(|block|, _ => hole);
    assert marks[..|skipped|] == skipped;
    if hole {
      forall p | |skipped| <= p < |marks| ensures data[p] == 0 {
        assert data[p] == block[p - |skipped|];
      }
      SoFarSkips(before, contents, data, skipped, sparse, marks);
    } else {
      SoFarWrites(before, contents, after, data, skipped, sparse, marks);
    }
  }

  lemma NothingDecided(data: seq<Byte>, sparse: bool)
    ensures HolesDecided(data, [], sparse, [])
  {
  }

  lemma NothingCopied(before: seq<Byte>, data: seq<Byte>, sparse: bool)
    ensures SoFar(before, before, data, [], sparse)
  {
  }

  lemma Finished(before: seq<Byte>, contents: seq<Byte>, data: seq<Byte>, skipped: seq<bool>, sparse: bool)
    requires SoFar(before, contents, data, skipped, sparse)
    ensures |skipped| <= |data| && |Extend(contents, |skipped|)| >= |skipped|
    ensures forall p :: 0 <= p < |skipped| && skipped[p] ==> sparse && data[p] == 0
    ensures forall p :: 0 <= p < |skipped| ==>
      Extend(contents, |skipped|)[..|skipped|][p] == AfterCopy(before, data, skipped, p)
  {
  }

  /** One block: a hole is a seek, anything else a write. */
  method CopyBlock(destination: Target, block: seq<Byte>, hole: bool) returns (ok: bool)
    modifies destination
    ensures ok ==> destination.position == old(destination.position) + |block|
    ensures ok ==>
      destination.contents == if hole then old(destination.contents)
                              else Overwrite(old(destination.contents), old(destination.position), block)
    ensures destination.reliable ==> ok
  {
    if hole {
      destination.SeekForward(|block|);
      return true;
    }
    ok := destination.Write(block);
  }

  /**
   The copy loop; with `calm` it is not cancelled and no callback raises.  `reported` is what `progress` was called
   with, `skipped` says which positions were left as holes: exactly the blocks of zeros, and only when asked for.
   */
  method Copy(source: Source, destination: Target, total: nat, sparse: bool, calm: bool)
    returns (r: CopyResult, reported: seq<nat>, ghost skipped: seq<bool>)
    requires source.Valid() && source.position == 0 && destination.position == 0
    modifies source, destination
    ensures source.Valid()
    ensures r.Copied? ==>
      && total <= |source.data| && source.position == total == |skipped| == |destination.contents|
      && (forall p :: 0 <= p < total && skipped[p] ==> sparse && source.data[p] == 0)
      && (forall p :: 0 <= p < total ==>
            destination.contents[p] == AfterCopy(old(destination.contents), source.data, skipped, p))
      && Rising(reported, total) && HolesDecided(source.data, skipped, sparse, reported)
    ensures r.SourceEnded? ==> |source.data| == source.position < total
    ensures r.Cancelled? || r.CallbackError? ==> !calm
    ensures r.IoError? ==> !source.reliable || !destination.reliable
    ensures calm && source.reliable && destination.reliable ==>
      r == if total <= |source.data| then Copied else SourceEnded
  {
    hide SoFar, Overwrite, Extend, AfterCopy, HolesDecided;
    var done := 0;
    reported, skipped := [], [];
    ghost var before := destination.contents;
    NothingCopied(before, source.data, sparse);
    assert HolesDecided(source.data, skipped, sparse, reported) by { NothingDecided(source.data, sparse); }
    while done < total
      invariant done <= total && source.Valid() && source.position == done == destination.position == |skipped|
      invariant SoFar(before, destination.contents, source.data, skipped, sparse)
      invariant Rising(reported, done) && HolesDecided(source.data, skipped, sparse, reported)
    {
      var cancelled: bool := *;
      if cancelled && !calm {
        return Cancelled, reported, skipped;
      }
      var wanted := if BLOCK_SIZE < total - done then BLOCK_SIZE else total - done;
      var read := source.Read(wanted);
      if read.ReadError? {
        return IoError, reported, skipped;
      }
      var block := read.bytes;
      if block == [] {
        return SourceEnded, reported, skipped;
      }
      var hole := sparse && AllZero(block);
      ghost var contents := destination.contents;
      var ok := CopyBlock(destination, block, hole);
      if !ok {
        return IoError, reported, skipped;
      }
      SoFarGrows(before, contents, destination.contents, source.data, skipped, sparse, block, hole);
      OneMoreBlock(source.data, skipped, sparse, reported, block, hole);
      ghost var decided := skipped + seq(|block|, _ => hole);
      skipped := decided;
      done := done + |block|;
      var raised: bool := *;
      if raised && !calm {
        return CallbackError, reported, skipped;
      }
      reported := reported + [done];
    }
    Finished(before, destination.contents, source.data, skipped, sparse);
    var ok := destination.Truncate(total);
    return if ok then Copied else IoError, reported, skipped;
  }

  /** The copy is exact if and only if no hole exposes an old nonzero byte of the destination. */
  lemma ExactIffHolesWereZero(before: seq<Byte>, after: seq<Byte>, data: seq<Byte>, skipped: seq<bool>, total: nat)
    requires total <= |data| && |after| == |skipped| == total
    requires forall p :: 0 <= p < total && skipped[p] ==> data[p] == 0
    requires forall p :: 0 <= p < total ==> after[p] == AfterCopy(before, data, skipped, p)
    ensures after == data[..total] <==> forall p :: 0 <= p < total && skipped[p] && p < |before| ==> before[p] == 0
  {
    if after == data[..total] {
      forall p | 0 <= p < total && skipped[p] && p < |before| ensures before[p] == 0 {
        assert after[p] == data[..total][p];
      }
    } else {
      var p :| 0 <= p < total && after[p] != data[..total][p];
    }
  }

  /** A backup's destination starts empty, so sparse and dense copies leave the same bytes: the source's. */
  method CopyToEmpty(source: Source, total: nat, sparse: bool, calm: bool) returns (r: CopyResult, file: Target)
    requires source.Valid() && source.position == 0
    modifies source
    ensures r.Copied? ==> total <= |source.data| && file.contents == source.data[..total]
    ensures r.SourceEnded? ==> |source.data| < total
    ensures calm && source.reliable ==> r == if total <= |source.data| then Copied else SourceEnded
  {
    file := new Target([], calm);
    var reported: seq<nat>;
    ghost var skipped: seq<bool>;
    r, reported, skipped := Copy(source, file, total, sparse, calm);
    if r.Copied? {
      ExactIffHolesWereZero([], file.contents, source.data, skipped, total);
    }
  }
}
