/**
 Publication of backups in isopropyl/backup.py.  Which system calls fail, and whether another process creates the
 destination while the backup runs, is an arbitrary `Faults` value, so a statement about every value is a statement
 about every failure pattern.
 */
module BackupPublish {
  import opened Wrappers
  import opened Bytes

  /** A directory entry: a file, with the inode and the bytes it holds, or a directory. */
  datatype Item = File(inode: nat, contents: seq<Byte>) | Folder

  /** The names the two imagers use, and anybody else's. */
  datatype Name = Destination | Partial | Raw | Output | Workspace | Foreign(id: nat)

  datatype Call =
    | Inspect | CreatePartial | Capture | Link | UnlinkSource | FsyncSource | FsyncDestination | CleanPartial

  /** `race` is the file another process links at the target name just before this process tries to. */
  datatype Faults = Faults(fails: Call -> bool, race: Option<Item>)

  datatype Outcome = Done | Refused | PublishFailed(published: bool)

  class Directory {
    var entries: map<Name, Item>

    constructor ()
      ensures entries == map[]
    {
      entries := map[];
    }
  }

  datatype LinkResult = Linked | Exists | LinkError

  /** What `os.link` finds at the target name. */
  function Raced(entries: map<Name, Item>, name: Name, faults: Faults): map<Name, Item> {
    if faults.race.Some? && name !in entries then entries[name := faults.race.value] else entries
  }

  /** `os.link`: never replaces an entry. */
  method LinkAt(source: Directory, from: Name, target: Directory, to: Name, faults: Faults) returns (r: LinkResult)
    requires from in source.entries && from != to
    modifies target
    ensures
      var before := Raced(old(target.entries), to, faults);
      match r
      case Linked =>
        to !in before && !faults.fails(Link) && target.entries == before[to := old(source.entries)[from]]
      case Exists => to in before && target.entries == before
      case LinkError => to !in before && faults.fails(Link) && target.entries == before
  {
    var item := source.entries[from];
    target.entries := Raced(target.entries, to, faults);
    if to in target.entries {
      return Exists;
    }
    if faults.fails(Link) {
      return LinkError;
    }
    target.entries := target.entries[to := item];
    return Linked;
  }

  datatype UnlinkResult = Unlinked | Absent | UnlinkError

  method UnlinkAt(directory: Directory, name: Name, fails: bool) returns (r: UnlinkResult)
    modifies directory
    ensures
      match r
      case Unlinked => name in old(directory.entries) && !fails && directory.entries == old(directory.entries) - {name}
      case Absent => name !in directory.entries && directory.entries == old(directory.entries)
      case UnlinkError => name in directory.entries && fails && directory.entries == old(directory.entries)
  {
    if name !in directory.entries {
      return Absent;
    }
    if fails {
      return UnlinkError;
    }
    directory.entries := directory.entries - {name};
    return Unlinked;
  }

  /** The commit linked the source's item at a free name; the source name is gone unless its unlink failed. */
  ghost predicate Committed(
    same: bool, source0: map<Name, Item>, target0: map<Name, Item>, source1: map<Name, Item>,
    target1: map<Name, Item>, from: Name, to: Name, faults: Faults)
    requires from in source0
  {
    var linked := target0[to := source0[from]];
    var gone := if faults.fails(UnlinkSource) then {} else {from};
    && to !in target0 && faults.race == None
    && target1 == (if same then linked - gone else linked)
    && (!same ==> source1 == source0 - gone)
  }

  /** `_commit_without_overwrite_at` */
  method CommitWithoutOverwrite(source: Directory, from: Name, target: Directory, to: Name, faults: Faults)
    returns (r: Outcome)
    requires from in source.entries && from != to
    modifies source, target
    ensures r.Refused? ==>
      && (to in Raced(old(target.entries), to, faults) || faults.fails(Link))
      && target.entries == Raced(old(target.entries), to, faults)
      && (source != target ==> source.entries == old(source.entries))
    ensures !r.Refused? ==>
      && Committed(source == target, old(source.entries), old(target.entries), source.entries, target.entries,
                   from, to, faults)
      && (r.Done? <==> !faults.fails(UnlinkSource) && !faults.fails(FsyncSource)
                       && (source == target || !faults.fails(FsyncDestination)))
      && (r.PublishFailed? ==> r.published)
      && !faults.fails(Link)
  {
    var linked := LinkAt(source, from, target, to, faults);
    if !linked.Linked? {
      return Refused;
    }
    var unlinked := UnlinkAt(source, from, faults.fails(UnlinkSource));
    if !unlinked.Unlinked? {
      return PublishFailed(true);
    }
    if faults.fails(FsyncSource) || (source != target && faults.fails(FsyncDestination)) {
      return PublishFailed(true);
    }
    return Done;
  }

  // ----- the raw imager

  /** What the caller is told, from what was there and what failed. */
  function CaptureOutcome(before: map<Name, Item>, to: Name, faults: Faults): Outcome {
    if faults.fails(Inspect) || to in before || faults.fails(CreatePartial) then Refused
    else if faults.fails(Capture) || faults.race.Some? || faults.fails(Link) then
      if faults.fails(CleanPartial) then PublishFailed(false) else Refused
    else if faults.fails(UnlinkSource) || faults.fails(FsyncSource) then PublishFailed(true)
    else Done
  }

  /** How a capture leaves its directory. */
  ghost predicate Captured(
    before: map<Name, Item>, after: map<Name, Item>, to: Name, file: Item, faults: Faults, r: Outcome)
  {
    match r
    case Done => to !in before && after == before[to := file]
    case Refused => Partial !in after && (after == before || after == Raced(before, to, faults))
    case PublishFailed(published) =>
      && (Partial in after ==> faults.fails(CleanPartial))
      && if published then to !in before && after - {Partial} == before[to := file]
         else Partial in after && (after - {Partial} == before || after - {Partial} == Raced(before, to, faults))
  }

  /**
   `_capture_bound`: an existing destination is never touched; a normal return means the destination names the whole
   capture and the private file is gone; a private file that survives is reported, and the report's `published`
   says truthfully whether the destination was linked.
   */
  method CaptureBound(directory: Directory, to: Name, inode: nat, data: seq<Byte>, faults: Faults)
    returns (r: Outcome)
    requires Partial !in directory.entries && to != Partial
    modifies directory
    ensures Captured(old(directory.entries), directory.entries, to, File(inode, data), faults, r)
    ensures r == CaptureOutcome(old(directory.entries), to, faults)
  {
    ghost var before := directory.entries;
    if faults.fails(Inspect) || to in directory.entries {
      return Refused;
    }
    if faults.fails(CreatePartial) {
      return Refused;
    }
    directory.entries := directory.entries[Partial := File(inode, [])];
    r := FillAndPublish(directory, to, inode, data, faults, before);
    var published := !r.Refused?;
    ghost var middle := directory.entries;
    var cleaned := UnlinkAt(directory, Partial, faults.fails(CleanPartial));
    if cleaned.UnlinkError? {
      return PublishFailed(published);
    }
    assert directory.entries == middle - {Partial};
  }

  /** The part of `_capture_bound` between the creation of the private file and its removal. */
  method FillAndPublish(
    directory: Directory, to: Name, inode: nat, data: seq<Byte>, faults: Faults, ghost before: map<Name, Item>)
    returns (r: Outcome)
    requires directory.entries == before[Partial := File(inode, [])]
    requires Partial !in before && to !in before && to != Partial
    modifies directory
    ensures directory.entries - {Partial} ==
            if !r.Refused? then before[to := File(inode, data)]
            else if faults.fails(Capture) then before
            else Raced(before, to, faults)
    ensures r.Refused? ==> Partial in directory.entries
    ensures r == if faults.fails(Capture) || faults.race.Some? || faults.fails(Link) then Refused
                 else if faults.fails(UnlinkSource) || faults.fails(FsyncSource) then PublishFailed(true)
                 else Done
    ensures r.Done? ==> Partial !in directory.entries
  {
    if faults.fails(Capture) {
      // any step between creating the private file and publishing it
      return Refused;
    }
    directory.entries := directory.entries[Partial := File(inode, data)];
    r := CommitWithoutOverwrite(directory, Partial, directory, to, faults);
  }

  // ----- the virtual-disk imager

  /** Failures of the steps around the two publications. */
  datatype Surroundings = Surroundings(
    createWorkspaceFails: bool, openWorkspaceFails: bool, earlyRemovalFails: bool,
    convertFails: bool, partialOutput: bool,
    cleanRawFails: bool, cleanOutputFails: bool, removeWorkspaceFails: bool, childUnreaped: bool)

  datatype VirtualOutcome = Completed | Raised(error: Outcome) | CleanupFailed(published: bool)

  /** `_cleanup_virtual_backup`: true when every private name is gone. */
  method CleanupWorkspace(workspace: Directory, parent: Directory, around: Surroundings) returns (clean: bool)
    requires workspace != parent && Workspace in parent.entries
    modifies workspace, parent
    ensures parent.entries - {Workspace} == old(parent.entries) - {Workspace}
    ensures workspace.entries - {Raw, Output} == old(workspace.entries) - {Raw, Output}
    ensures clean <==> Workspace !in parent.entries
    ensures Workspace !in parent.entries ==> workspace.entries == map[]
    ensures clean <==>
      && (Raw in old(workspace.entries) ==> !around.cleanRawFails)
      && (Output in old(workspace.entries) ==> !around.cleanOutputFails)
      && old(workspace.entries) - {Raw, Output} == map[] && !around.removeWorkspaceFails
  {
    var raw := UnlinkAt(workspace, Raw, around.cleanRawFails);
    var output := UnlinkAt(workspace, Output, around.cleanOutputFails);
    clean := !raw.UnlinkError? && !output.UnlinkError?;
    assert workspace.entries - {Raw, Output} == old(workspace.entries) - {Raw, Output};
    assert clean ==> workspace.entries == workspace.entries - {Raw, Output};
    assert !clean ==> Raw in workspace.entries || Output in workspace.entries;
    if workspace.entries == map[] && !around.removeWorkspaceFails {
      parent.entries := parent.entries - {Workspace};
    } else {
      clean := false;
    }
  }

  /** How the body of a virtual backup ends, from what failed; a race is a file another process linked. */
  function Ending(before: map<Name, Item>, around: Surroundings, capture: Faults, publish: Faults): Outcome {
    var captured := CaptureOutcome(map[], Raw, capture);
    if !captured.Done? then captured
    else if around.convertFails || Destination in before || publish.race.Some? || publish.fails(Link) then Refused
    else if publish.fails(UnlinkSource) || publish.fails(FsyncSource) || publish.fails(FsyncDestination) then
      PublishFailed(true)
    else Done
  }

  /** The destination gets linked: the body reached the final publication and that publication did not refuse. */
  predicate Links(before: map<Name, Item>, around: Surroundings, capture: Faults, publish: Faults) {
    CaptureOutcome(map[], Raw, capture).Done? && !Ending(before, around, capture, publish).Refused?
  }

  /** None of the steps up to and including the publication fails, and no other process is faster. */
  predicate NothingFails(around: Surroundings, capture: Faults, publish: Faults) {
    && !capture.fails(Inspect) && !capture.fails(CreatePartial) && !capture.fails(Capture) && !capture.fails(Link)
    && !capture.fails(UnlinkSource) && !capture.fails(FsyncSource) && capture.race.None?
    && !around.createWorkspaceFails && !around.openWorkspaceFails && !around.convertFails
    && !publish.fails(Link) && !publish.fails(UnlinkSource) && !publish.fails(FsyncSource)
    && !publish.fails(FsyncDestination) && publish.race.None?
  }

  /** The private raw file survives exactly when it was created and both attempts to unlink it failed. */
  method CaptureRaw(workspace: Directory, inode: nat, data: seq<Byte>, capture: Faults) returns (r: Outcome)
    requires workspace.entries == map[] && capture.race == None
    modifies workspace
    ensures r == CaptureOutcome(map[], Raw, capture)
    ensures r.Done? ==> workspace.entries == map[Raw := File(inode, data)]
    ensures workspace.entries - {Raw, Output} == map[]
            || (Partial in workspace.entries && capture.fails(CleanPartial) && r.PublishFailed?)
    ensures r == PublishFailed(false) ==> Partial in workspace.entries
  {
    r := CaptureBound(workspace, Raw, inode, data, capture);
    ghost var after := workspace.entries;
    if Partial !in after {
      assert after - {Partial} == after;
      assert after == map[] || after == map[Raw := File(inode, data)];
    }
  }

  /** The part of `backup` between opening the workspace and cleaning it up; yields the failure and `published`. */
  method CaptureAndPublish(
    workspace: Directory, parent: Directory, rawInode: nat, raw: seq<Byte>, inode: nat, container: seq<Byte>,
    around: Surroundings, capture: Faults, publish: Faults) returns (failure: Outcome, published: bool)
    requires workspace != parent && workspace.entries == map[] && capture.race == None
    modifies workspace, parent
    ensures failure == Ending(old(parent.entries), around, capture, publish)
    ensures published <==> Links(old(parent.entries), around, capture, publish)
    ensures parent.entries ==
            if published then old(parent.entries)[Destination := File(inode, container)]
            else if CaptureOutcome(map[], Raw, capture).Done? && !around.convertFails then
              Raced(old(parent.entries), Destination, publish)
            else old(parent.entries)
    ensures workspace.entries - {Raw, Output} == map[]
            || (Partial in workspace.entries && capture.fails(CleanPartial))
    ensures failure == PublishFailed(false) ==> Partial in workspace.entries
    ensures failure.Done? ==> workspace.entries.Keys == {Raw}
  {
    var captured := CaptureRaw(workspace, rawInode, raw, capture);
    if !captured.Done? {
      return captured, false;
    }
    if around.convertFails {
      if around.partialOutput {
        workspace.entries := workspace.entries[Output := File(inode, [])];
      }
      return Refused, false;
    }
    workspace.entries := workspace.entries[Output := File(inode, container)];
    failure := CommitWithoutOverwrite(workspace, Output, parent, Destination, publish);
    published := !failure.Refused?;
  }

  lemma SameBut(a: map<Name, Item>, b: map<Name, Item>, name: Name)
    requires a - {name} == b - {name}
    ensures forall n :: n != name ==> (n in a <==> n in b) && (n in a ==> a[n] == b[n])
  {
    forall n | n != name ensures (n in a <==> n in b) && (n in a ==> a[n] == b[n]) {
      assert n in a <==> n in a - {name};
      assert n in b <==> n in b - {name};
    }
  }

  /**
   `VirtualDriveImager.backup`, from the check of the destination on.  Existing entries are never changed; a normal
   return means the destination names the whole container and the workspace is gone; a workspace that survives is
   reported, and the report says truthfully whether the destination was linked.
   */
  method BackupVirtual(
    parent: Directory, rawInode: nat, raw: seq<Byte>, inode: nat, container: seq<Byte>,
    around: Surroundings, capture: Faults, publish: Faults) returns (r: VirtualOutcome)
    requires Workspace !in parent.entries && capture.race == None
    modifies parent
    ensures
      var before := old(parent.entries);
      var entered := Destination !in before && !around.createWorkspaceFails && !around.openWorkspaceFails;
      var linked := entered && Links(before, around, capture, publish);
      && (forall n :: n in before ==> n in parent.entries && parent.entries[n] == before[n])
      && (linked ==> parent.entries - {Workspace} == before[Destination := File(inode, container)])
      && (!linked ==> parent.entries - {Workspace} == before
                      || parent.entries - {Workspace} == Raced(before, Destination, publish))
      && (r.Completed? ==> linked && parent.entries == before[Destination := File(inode, container)])
      && (r.CleanupFailed? ==> entered && (r.published <==> linked))
      && (r.Raised? ==> r.error == if entered then Ending(before, around, capture, publish) else Refused)
      && (r.Raised? ==> r.error != PublishFailed(false) && !r.error.Done?)
      && (r.Completed? <==>
            && Destination !in before && NothingFails(around, capture, publish)
            && !around.cleanRawFails && !around.removeWorkspaceFails && !around.childUnreaped)
      && (r.CleanupFailed? <==> entered && (Workspace in parent.entries || around.childUnreaped))
      // the workspace survives unreported exactly when it could be neither opened nor removed
      && (Workspace in parent.entries && !r.CleanupFailed? <==>
            Destination !in before && !around.createWorkspaceFails
            && around.openWorkspaceFails && around.earlyRemovalFails)
      && (r.CleanupFailed? ==>
            around.cleanRawFails || around.cleanOutputFails || around.removeWorkspaceFails || around.childUnreaped
            || capture.fails(CleanPartial))
  {
    if Destination in parent.entries || around.createWorkspaceFails {
      assert parent.entries - {Workspace} == parent.entries;
      return Raised(Refused);
    }
    ghost var before := parent.entries;
    var workspace := new Directory();
    parent.entries := parent.entries[Workspace := Folder];
    assert parent.entries - {Workspace} == before;
    if around.openWorkspaceFails {
      if !around.earlyRemovalFails {
        parent.entries := parent.entries - {Workspace};
      }
      return Raised(Refused);
    }
    var failure, published := CaptureAndPublish(
      workspace, parent, rawInode, raw, inode, container, around, capture, publish);
    ghost var middle := parent.entries;
    ghost var private := workspace.entries;
    var clean := CleanupWorkspace(workspace, parent, around);
    SameBut(middle, parent.entries, Workspace);
    assert published ==> middle - {Workspace} == before[Destination := File(inode, container)];
    assert !published ==> middle - {Workspace} == before
                          || middle - {Workspace} == Raced(before, Destination, publish);
    if clean {
      assert parent.entries - {Workspace} == parent.entries;
      assert Partial in private <==> Partial in private - {Raw, Output};
    }
    if !clean || around.childUnreaped {
      return CleanupFailed(published);
    }
    if !failure.Done? {
      return Raised(failure);
    }
    return Completed;
  }

  /**
   Where `published` on the error can mislead: the raw imager's own report about the private raw file is raised
   unchanged.  An error that claims publication is wrong exactly when the raw capture is what failed.
   */
  lemma ClaimIsTrueUnlessRawSyncFailed(
    before: map<Name, Item>, around: Surroundings, capture: Faults, publish: Faults)
    requires Ending(before, around, capture, publish) == PublishFailed(true) && capture.race == None
    ensures Links(before, around, capture, publish) <==>
            !capture.fails(UnlinkSource) && !capture.fails(FsyncSource)
  {
  }

  /** A backup in which nothing fails leaves the container, and nothing else. */
  method UndisturbedBackup(inode: nat, container: seq<Byte>) returns (r: VirtualOutcome, parent: Directory)
    ensures r == Completed && parent.entries == map[Destination := File(inode, container)]
  {
    parent := new Directory();
    var nothing := Faults(_ => false, None);
    var around := Surroundings(false, false, false, false, false, false, false, false, false);
    r := BackupVirtual(parent, 0, [], inode, container, around, nothing, nothing);
  }

  /** A backup that linked nothing, left nothing, and still reports `published`: the raw capture could not be synced. */
  method UnpublishedReportedAsPublished(inode: nat, container: seq<Byte>)
    returns (r: VirtualOutcome, parent: Directory)
    ensures r == Raised(PublishFailed(true)) && parent.entries == map[]
  {
    parent := new Directory();
    var nothing := Faults(_ => false, None);
    var capture := Faults((c: Call) => c == FsyncSource, None);
    var around := Surroundings(false, false, false, false, false, false, false, false, false);
    r := BackupVirtual(parent, 0, [], inode, container, around, capture, nothing);
    assert parent.entries - {Workspace} == map[];
    assert Workspace !in parent.entries;
    assert parent.entries == parent.entries - {Workspace};
  }

  /** A backup whose workspace could be neither opened nor removed leaves it behind, and its error does not say so. */
  method UnreportedWorkspace(inode: nat, container: seq<Byte>) returns (r: VirtualOutcome, parent: Directory)
    ensures r == Raised(Refused) && Workspace in parent.entries && Destination !in parent.entries
  {
    parent := new Directory();
    var nothing := Faults(_ => false, None);
    var around := Surroundings(false, true, true, false, false, false, false, false, false);
    r := BackupVirtual(parent, 0, [], inode, container, around, nothing, nothing);
    assert Destination in parent.entries <==> Destination in parent.entries - {Workspace};
  }
}
