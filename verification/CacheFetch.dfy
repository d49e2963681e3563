/**
 A file that may take fewer bytes than it is given, and the loop that writes all of them: isopropyl/authenticode.py
 (`_write_all`) and the inner loop of `fetch_resource` in isopropyl/bootloaders.py.
 */
module ShortWrites {
  import opened Wrappers
  import opened Bytes

  class Sink {
    var contents: seq<Byte>
    /** Every write of something takes at least one byte. */
    const reliable: bool

    constructor (reliable: bool)
      ensures contents == [] && this.reliable == reliable
    {
      contents := [];
      this.reliable := reliable;
    }

    /** One write: nothing, an error value, or the first `r.value` bytes are taken. */
    method Write(data: seq<Byte>) returns (r: Option<int>)
      modifies this
      ensures r.Some? ==> r.value <= |data|
      ensures reliable && data != [] ==> r.Some? && r.value > 0
      ensures contents == old(contents) + if r.Some? && r.value > 0 then data[..r.value] else []
    {
      var none: bool, count: int := *, *;
      if none && !reliable {
        return None;
      }
      if reliable && count <= 0 {
        count := 1;
      }
      count := if count > |data| then |data| else count;
      if count > 0 {
        contents := contents + data[..count];
      }
      return Some(count);
    }
  }

  /** Success means all of `payload` was appended; a failure leaves a proper prefix of it. */
  method WriteAll(sink: Sink, payload: seq<Byte>) returns (ok: bool)
    modifies sink
    ensures ok ==> sink.contents == old(sink.contents) + payload
    ensures !ok ==> exists k :: 0 <= k < |payload| && sink.contents == old(sink.contents) + payload[..k]
    ensures sink.reliable ==> ok
  {
    var done := 0;
    while done < |payload|
      invariant 0 <= done <= |payload|
      invariant sink.contents == old(sink.contents) + payload[..done]
    {
      var written := sink.Write(payload[done..]);
      if written.None? || written.value <= 0 {
        return false;
      }
      assert payload[..done] + payload[done..][..written.value] == payload[..done + written.value];
      done := done + written.value;
    }
    assert payload[..done] == payload;
    return true;
  }
}

/**
 `fetch_resource` and `_verify_resource_at` of isopropyl/bootloaders.py, with no other writer in the cache directory.
 Which calls fail, and whether cancellation or the deadline strikes, is an arbitrary `Faults` value, so a statement
 about every value is a statement about every failure pattern.
 */
module CacheFetch {
  import opened Wrappers
  import opened Bytes
  import opened ShortWrites

  datatype Entry = File(contents: seq<Byte>, links: nat) | Folder | Special

  datatype Name = Cataloged | Foreign(id: nat)

  datatype Resource = Resource(size: nat, digest: string)

  datatype Outcome = Fetched | DownloadError

  type Hash = seq<Byte> -> string

  /** Bytes of exactly the cataloged size and digest. */
  predicate Exact(contents: seq<Byte>, resource: Resource, sha: Hash) {
    |contents| == resource.size && sha(contents) == resource.digest
  }

  predicate Good(entry: Entry, resource: Resource, sha: Hash) {
    entry.File? && entry.links == 1 && Exact(entry.contents, resource, sha)
  }

  /** The received stream. */
  function Joined(blocks: seq<seq<Byte>>): seq<Byte> {
    if blocks == [] then [] else Joined(blocks[..|blocks| - 1]) + blocks[|blocks| - 1]
  }

  class Cache {
    var entries: map<Name, Entry>
    /** The private download file, while its name exists. */
    var temporary: Sink?

    constructor (entries: map<Name, Entry>)
      ensures this.entries == entries && temporary == null
    {
      this.entries := entries;
      temporary := null;
    }
  }

  /** What can raise, in order; a check of the cancel event or the deadline counts with the call it precedes. */
  datatype Call =
    | Start | VerifyStat | VerifyOpen | VerifyFstat | VerifyFstatAgain | ReturnVerified
    | Inspect | Unlink | SyncUnlink | Connect | Receive | Replace | SyncReplace | Cleanup

  /** How the reading of a cached file goes: a read may fail, or cancellation or the deadline may interrupt it. */
  datatype Reading = Reads | ReadFails | Interrupts

  datatype Faults = Faults(fails: Call -> bool, reading: Reading)

  predicate HasGood(entries: map<Name, Entry>, resource: Resource, sha: Hash) {
    Cataloged in entries && Good(entries[Cataloged], resource, sha)
  }

  predicate HasFolder(entries: map<Name, Entry>) {
    Cataloged in entries && entries[Cataloged].Folder?
  }

  /** The verification gets as far as reading. */
  predicate Opens(entries: map<Name, Entry>, resource: Resource, f: Faults) {
    && Cataloged in entries && entries[Cataloged].File? && entries[Cataloged].links == 1
    && |entries[Cataloged].contents| == resource.size
    && !f.fails(VerifyStat) && !f.fails(VerifyOpen) && !f.fails(VerifyFstat)
  }

  /** None of the calls that a verification makes fails; an empty file is never read. */
  predicate Undisturbed(resource: Resource, f: Faults) {
    && !f.fails(VerifyStat) && !f.fails(VerifyOpen) && !f.fails(VerifyFstat) && !f.fails(VerifyFstatAgain)
    && (f.reading.ReadFails? ==> resource.size == 0)
  }

  /**
   `_verify_resource_at`: raises exactly when the reading it got to is interrupted; otherwise true if and only if the
   entry is a single-link regular file of the exact size and digest and no call of the verification failed.
   */
  method VerifyResourceAt(cache: Cache, resource: Resource, sha: Hash, f: Faults) returns (r: Result<bool, Outcome>)
    ensures r.Failure? <==> f.reading.Interrupts? && Opens(cache.entries, resource, f)
    ensures r.Success? ==> (r.value <==> HasGood(cache.entries, resource, sha) && Undisturbed(resource, f))
  {
    if f.fails(VerifyStat) || Cataloged !in cache.entries {
      return Success(false);
    }
    var entry := cache.entries[Cataloged];
    if !entry.File? || entry.links != 1 {
      return Success(false);
    }
    if f.fails(VerifyOpen) || f.fails(VerifyFstat) || |entry.contents| != resource.size {
      return Success(false);
    }
    var stream: seq<Byte> := [];
    var remaining := resource.size;
    while remaining > 0
      invariant 0 <= remaining <= resource.size
      invariant stream == entry.contents[..resource.size - remaining]
      invariant remaining == 0 < resource.size ==> f.reading.Reads?
    {
      var length: int, strikes: bool := *, *;
      length := if length <= 0 then 1 else if length > remaining then remaining else length;
      if !f.reading.Reads? && (strikes || length == remaining) {
        return if f.reading.Interrupts? then Failure(DownloadError) else Success(false);
      }
      var done := resource.size - remaining;
      assert stream + entry.contents[done..done + length] == entry.contents[..done + length];
      stream := stream + entry.contents[done..done + length];
      remaining := remaining - length;
    }
    if f.reading.Interrupts? {
      return Failure(DownloadError);
    }
    assert stream == entry.contents;
    return Success(!f.fails(VerifyFstatAgain) && sha(stream) == resource.digest);
  }

  /** A known-bad entry is removed, a directory is refused. */
  method DiscardInvalid(cache: Cache, f: Faults) returns (ok: bool)
    modifies cache`entries
    ensures
      var before := old(cache.entries);
      if f.fails(Inspect) || HasFolder(before) || (Cataloged in before && f.fails(Unlink)) then
        !ok && cache.entries == before
      else
        cache.entries == before - {Cataloged} && (ok <==> Cataloged in before ==> !f.fails(SyncUnlink))
  {
    if f.fails(Inspect) {
      return false;
    }
    if Cataloged !in cache.entries {
      assert cache.entries == cache.entries - {Cataloged};
      return true;
    }
    if cache.entries[Cataloged].Folder? || f.fails(Unlink) {
      return false;
    }
    cache.entries := cache.entries - {Cataloged};
    return !f.fails(SyncUnlink);
  }

  lemma {:induction false} JoinedPrefix(a: seq<seq<Byte>>, b: seq<seq<Byte>>)
    requires a <= b
    ensures |Joined(a)| <= |Joined(b)|
  {
    if |a| < |b| {
      JoinedPrefix(a, b[..|b| - 1]);
    } else {
      assert a == b;
    }
  }

  /** A check or a callback in the loop: it raises only when `calm` is false. */
  method Interrupted(calm: bool) returns (raises: bool)
    ensures calm ==> !raises
  {
    raises := *;
    raises := raises && !calm;
  }

  /** The download loop: what is written is a prefix of what was received, never beyond the cataloged size. */
  method ReceiveAll(output: Sink, resource: Resource, blocks: seq<seq<Byte>>, calm: bool)
    returns (r: Option<seq<Byte>>)
    requires output.contents == []
    modifies output
    ensures |output.contents| <= resource.size
    ensures r.Some? ==> r.value == output.contents == Joined(blocks)
    ensures calm && output.reliable ==> (r.Some? <==> |Joined(blocks)| <= resource.size)
  {
    var digest: seq<Byte> := [];
    var total := 0;
    var i := 0;
    while i < |blocks|
      invariant 0 <= i <= |blocks|
      invariant total == |digest| <= resource.size
      invariant output.contents == digest == Joined(blocks[..i])
    {
      var raises := Interrupted(calm);
      if raises {
        return None;
      }
      var block := blocks[i];
      total := total + |block|;
      assert blocks[..i + 1][..i] == blocks[..i];
      JoinedPrefix(blocks[..i + 1], blocks);
      if total > resource.size {
        return None;
      }
      digest := digest + block;
      var written := WriteAll(output, block);
      if !written {
        return None;
      }
      var progressRaises := Interrupted(calm);
      if progressRaises {
        return None;
      }
      i := i + 1;
    }
    assert blocks[..i] == blocks;
    var interrupted := Interrupted(calm);
    return if interrupted then None else Some(digest);
  }

  /** From opening the connection to the digest check; success leaves the whole stream in the private file. */
  method Download(cache: Cache, resource: Resource, sha: Hash, blocks: seq<seq<Byte>>, f: Faults)
    returns (ok: bool)
    requires cache.temporary == null
    modifies cache`temporary
    ensures cache.temporary != null ==> fresh(cache.temporary) && |cache.temporary.contents| <= resource.size
    ensures ok ==> cache.temporary != null && cache.temporary.contents == Joined(blocks)
    ensures ok <==> !f.fails(Connect) && !f.fails(Receive) && Exact(Joined(blocks), resource, sha)
  {
    if f.fails(Connect) {
      return false;
    }
    var output := new Sink(!f.fails(Receive));
    cache.temporary := output;
    var received := ReceiveAll(output, resource, blocks, !f.fails(Receive));
    if received.None? || f.fails(Receive) {
      return false;
    }
    return |received.value| == resource.size && sha(received.value) == resource.digest;
  }

  /** `os.replace` onto the catalog name and the sync after it; yields whether nothing raised. */
  method Publish(cache: Cache, f: Faults) returns (ok: bool)
    requires cache.temporary != null
    modifies cache`entries, cache`temporary
    ensures ok <==> !f.fails(Replace) && !f.fails(SyncReplace)
    ensures if f.fails(Replace) then
              cache.temporary == old(cache.temporary) && cache.entries == old(cache.entries)
            else
              && cache.temporary == null
              && cache.entries == old(cache.entries)[Cataloged := File(old(cache.temporary.contents), 1)]
  {
    if f.fails(Replace) {
      return false;
    }
    cache.entries := cache.entries[Cataloged := File(cache.temporary.contents, 1)];
    cache.temporary := null;
    return !f.fails(SyncReplace);
  }

  /** How a fetch ends, as a function of what was there, what the server sent and what failed. */
  datatype End = End(entries: map<Name, Entry>, outcome: Outcome)

  function EndOf(before: map<Name, Entry>, resource: Resource, sha: Hash, blocks: seq<seq<Byte>>, f: Faults): End {
    var cached := Cataloged in before;
    if f.fails(Start) || (f.reading.Interrupts? && Opens(before, resource, f)) then End(before, DownloadError)
    else if HasGood(before, resource, sha) && Undisturbed(resource, f) then
      End(before, if f.fails(ReturnVerified) then DownloadError else Fetched)
    else if f.fails(Inspect) || HasFolder(before) || (cached && f.fails(Unlink)) then End(before, DownloadError)
    else if (cached && f.fails(SyncUnlink)) || f.fails(Connect) || f.fails(Receive)
            || !Exact(Joined(blocks), resource, sha) || f.fails(Replace) then
      End(before - {Cataloged}, DownloadError)
    else
      End(before[Cataloged := File(Joined(blocks), 1)], if f.fails(SyncReplace) then DownloadError else Fetched)
  }

  method TryFetch(cache: Cache, resource: Resource, sha: Hash, blocks: seq<seq<Byte>>, f: Faults)
    returns (r: Outcome)
    requires cache.temporary == null
    modifies cache`entries, cache`temporary
    ensures End(cache.entries, r) == EndOf(old(cache.entries), resource, sha, blocks, f)
    ensures cache.temporary != null ==> |cache.temporary.contents| <= resource.size
  {
    ghost var before := cache.entries;
    if f.fails(Start) {
      return DownloadError;
    }
    var verified := VerifyResourceAt(cache, resource, sha, f);
    if verified.Failure? {
      return DownloadError;
    }
    if verified.value {
      return if f.fails(ReturnVerified) then DownloadError else Fetched;
    }
    var discarded := DiscardInvalid(cache, f);
    if !discarded {
      return DownloadError;
    }
    var received := Download(cache, resource, sha, blocks, f);
    if !received {
      return DownloadError;
    }
    var published := Publish(cache, f);
    assert (before - {Cataloged})[Cataloged := File(Joined(blocks), 1)]
        == before[Cataloged := File(Joined(blocks), 1)];
    return if published then Fetched else DownloadError;
  }

  /**
   `fetch_resource`: the end is a function of what was there, what the server sent and what failed; the private file
   never outgrows the cataloged size and outlives the call only if its unlink failed.
   */
  method FetchResource(cache: Cache, resource: Resource, sha: Hash, blocks: seq<seq<Byte>>, f: Faults)
    returns (r: Outcome)
    requires cache.temporary == null
    modifies cache
    ensures End(cache.entries, r) == EndOf(old(cache.entries), resource, sha, blocks, f)
    ensures cache.temporary != null ==> f.fails(Cleanup) && |cache.temporary.contents| <= resource.size
  {
    r := TryFetch(cache, resource, sha, blocks, f);
    if cache.temporary != null && !f.fails(Cleanup) {
      cache.temporary := null;
    }
  }

  // ----- what the ends mean

  /**
   For every failure pattern the cache name ends as it was, absent, or naming exactly the received stream, which then
   has the cataloged size and digest; a directory is never touched, nor any other name; and a returned path means
   an entry that is good.
   */
  lemma EveryEndIsTrustworthy(
    before: map<Name, Entry>, resource: Resource, sha: Hash, blocks: seq<seq<Byte>>, f: Faults)
    ensures
      var end := EndOf(before, resource, sha, blocks, f);
      && (end.entries == before
          || (end.entries == before - {Cataloged} && !HasFolder(before))
          || (end.entries == before[Cataloged := File(Joined(blocks), 1)] && !HasFolder(before)
              && HasGood(end.entries, resource, sha)))
      && (end.outcome.Fetched? ==> HasGood(end.entries, resource, sha))
      && (forall n :: n != Cataloged ==>
            (n in end.entries <==> n in before) && (n in before ==> end.entries[n] == before[n]))
  {
  }

  /** When nothing fails, a fetch succeeds exactly for a good entry or an exact stream that no directory obstructs. */
  lemma UndisturbedFetch(
    before: map<Name, Entry>, resource: Resource, sha: Hash, blocks: seq<seq<Byte>>, f: Faults)
    requires (forall c :: !f.fails(c)) && f.reading.Reads?
    ensures EndOf(before, resource, sha, blocks, f).outcome.Fetched? <==>
            || HasGood(before, resource, sha)
            || (!HasFolder(before) && Exact(Joined(blocks), resource, sha))
  {
  }

  /** The verification of a good entry fails, without being interrupted. */
  predicate Misjudged(resource: Resource, f: Faults) {
    && !f.fails(Start) && !Undisturbed(resource, f)
    && (f.reading.Interrupts? ==> f.fails(VerifyStat) || f.fails(VerifyOpen) || f.fails(VerifyFstat))
  }

  /** No exact replacement is put in place. */
  predicate NotReplaced(resource: Resource, sha: Hash, blocks: seq<seq<Byte>>, f: Faults) {
    f.fails(SyncUnlink) || f.fails(Connect) || f.fails(Receive) || f.fails(Replace)
    || !Exact(Joined(blocks), resource, sha)
  }

  /**
   The exact condition under which a fetch loses a good cached artifact: a call of its verification fails, the
   removal goes through, and then no exact replacement arrives.
   */
  lemma GoodEntryIsLostExactly(
    before: map<Name, Entry>, resource: Resource, sha: Hash, blocks: seq<seq<Byte>>, f: Faults)
    requires HasGood(before, resource, sha)
    ensures !HasGood(EndOf(before, resource, sha, blocks, f).entries, resource, sha) <==>
            Misjudged(resource, f) && !f.fails(Inspect) && !f.fails(Unlink) && NotReplaced(resource, sha, blocks, f)
  {
  }

  /** A run that loses one: the good file cannot be opened for a moment, and there is no connection. */
  method GoodEntryIsLost(contents: seq<Byte>, sha: Hash) returns (r: Outcome, cache: Cache)
    ensures r == DownloadError && cache.entries == map[] && cache.temporary == null
  {
    var good := File(contents, 1);
    cache := new Cache(map[Cataloged := good]);
    assert Good(good, Resource(|contents|, sha(contents)), sha);
    var f := Faults((c: Call) => c == VerifyOpen || c == Connect, Reads);
    r := FetchResource(cache, Resource(|contents|, sha(contents)), sha, [contents], f);
    assert map[Cataloged := good] - {Cataloged} == map[];
  }

  /**
   Any number of fetches of the same resource by one process, each starting where the last ended, with whatever
   failures outside their verifications: once one has returned the path, the entry stays good.
   */
  lemma {:induction false} RunsKeepTheCacheTrustworthy(
    ends: seq<End>, resource: Resource, sha: Hash, streams: seq<seq<seq<Byte>>>, faults: seq<Faults>)
    requires |ends| == |streams| + 1 == |faults| + 1
    requires forall i :: 0 <= i < |faults| ==>
      ends[i + 1] == EndOf(ends[i].entries, resource, sha, streams[i], faults[i]) && Undisturbed(resource, faults[i])
    ensures forall i :: 0 < i < |ends| && ends[i].outcome.Fetched? ==>
      HasGood(ends[|ends| - 1].entries, resource, sha)
  {
    var n := |faults|;
    if n > 0 {
      RunsKeepTheCacheTrustworthy(ends[..n], resource, sha, streams[..n - 1], faults[..n - 1]);
      assert ends[n] == EndOf(ends[n - 1].entries, resource, sha, streams[n - 1], faults[n - 1]);
      EveryEndIsTrustworthy(ends[n - 1].entries, resource, sha, streams[n - 1], faults[n - 1]);
      if i :| 0 < i < n && ends[i].outcome.Fetched? {
        assert ends[..n][i].outcome.Fetched?;
        GoodEntryIsLostExactly(ends[n - 1].entries, resource, sha, streams[n - 1], faults[n - 1]);
      }
    }
  }
}
