/**
 Deletion through a private quarantine, `_delete_resource` in isopropyl/bootloaders.py.  Any system call may fail.
 Between any two calls other processes create, link, replace, resize and unlink whatever they can name, which is
 everything outside the quarantine directory.
 */
module CacheDeletion {
  import opened Wrappers

  type Node = nat

  datatype Kind = Regular | Symlink | Other

  /** `mode` stands for the permission bits. */
  datatype Inode = Inode(kind: Kind, mode: nat, size: nat)

  /** Where a link can be: in the artifact's directory, in the quarantine under "artifact", or in another directory. */
  datatype Place = Parent(name: string) | Artifact | Elsewhere(id: nat)

  type Links = map<Place, Node>

  /** What `os.stat` reports and `_same_object` compares. */
  datatype Status = Status(node: Node, inode: Inode, links: nat)

  /** What the artifact descriptor was opened on, with the links at that moment, and what `os.fstat` said of it. */
  datatype Look = Opening(names: Links, name: string, node: Node) | Sight(status: Status)

  datatype Handle = ParentFd | ArtifactFd | QuarantineFd

  /** A change of the links made by this process. */
  datatype Step = Step(before: Links, after: Links)

  datatype Issue = CloseQuarantine | RemoveQuarantine | SyncAfterRemoval | SyncRestored | SyncQuarantine

  datatype Reason =
    | Missing | UnsafePath | Uninspectable | IsSymlink | NotRegular | MultiplyLinked | CannotOpen | CannotBind
    | Changed | NoQuarantine | QuarantineUnopened | Disappeared | CannotIsolate | CannotRevalidate | CannotDelete

  /** What became of an isolated entry that was not deleted. */
  datatype Note = NotIsolated | Retained | SecondLink | RestoredUnsynced | Restored

  datatype Outcome = Deleted(size: nat) | Skipped(reason: Reason, note: Note)

  function Naming(names: Links, node: Node): set<Place> {
    set p | p in names && names[p] == node
  }

  /** The quarantine holds the only link to the node. */
  predicate Alone(names: Links, node: Node) {
    Artifact in names && names[Artifact] == node && forall p :: p in names && names[p] == node ==> p == Artifact
  }

  lemma OneLinkIsAlone(names: Links, node: Node)
    requires Artifact in names && names[Artifact] == node && |Naming(names, node)| == 1
    ensures Alone(names, node)
  {
    var all := Naming(names, node);
    assert Artifact in all;
    assert |all - {Artifact}| == 0;
    forall p | p in names && names[p] == node ensures p == Artifact {
      assert p in all;
      assert p !in all - {Artifact};
    }
  }

  /** Renaming the only link into the quarantine leaves one link, and dropping that restores the rest. */
  lemma RenameKeepsTheLink(names: Links, name: string)
    requires Parent(name) in names && Artifact !in names && |Naming(names, names[Parent(name)])| == 1
    ensures
      var node := names[Parent(name)];
      var isolated := (names - {Parent(name)})[Artifact := node];
      |Naming(isolated, node)| == 1 && isolated - {Artifact} == names - {Parent(name)}
  {
    var node := names[Parent(name)];
    var isolated := (names - {Parent(name)})[Artifact := node];
    var all := Naming(names, node);
    assert Parent(name) in all;
    assert |all - {Parent(name)}| == 0;
    forall p | p in isolated && isolated[p] == node ensures p == Artifact {
      assert p == Artifact || p in all - {Parent(name)};
    }
    assert Artifact in Naming(isolated, node);
    assert Naming(isolated, node) == {Artifact};
  }

  datatype StatResult = Found(status: Status) | NotFound | StatError

  class FileSystem {
    var names: Links
    var inodes: map<Node, Inode>
    /** The quarantine directory exists. */
    var quarantine: bool
    /** Descriptors of this call, and the node the artifact descriptor refers to. */
    var descriptors: set<Handle>
    var held: Node
    /** No call fails and no other process acts. */
    const calm: bool
    ghost var trace: seq<Step>
    ghost var looks: seq<Look>
    /** Which of the calls failed that a deletion survives. */
    ghost var troubles: seq<Issue>

    ghost predicate Valid()
      reads this
    {
      && (forall p :: p in names ==> names[p] in inodes)
      && (Artifact in names ==> quarantine)
      && (ArtifactFd in descriptors ==> held in inodes)
    }

    twostate predicate SameKinds()
      reads this
    {
      forall n :: n in old(inodes) ==> n in inodes && inodes[n].kind == old(inodes)[n].kind
    }

    /** What other processes cannot do. */
    twostate predicate Bounded()
      reads this
    {
      && (Artifact in names <==> Artifact in old(names))
      && (Artifact in names ==> names[Artifact] == old(names)[Artifact])
      && SameKinds()
      && (forall n :: Alone(old(names), n) ==> Alone(names, n))
      && (calm ==> names == old(names) && inodes == old(inodes))
    }

    method Interference()
      requires Valid()
      modifies this`names, this`inodes
      ensures Valid() && Bounded()
    {
      var steps: nat := *;
      while steps > 0 && !calm
        invariant Valid() && Bounded()
      {
        OtherProcess();
        steps := steps - 1;
      }
    }

    /** One step of another process. */
    method OtherProcess()
      requires Valid() && !calm
      modifies this`names, this`inodes
      ensures Valid() && Bounded()
    {
      var node: Node, inode: Inode := *, *;
      if node !in inodes || inodes[node].kind == inode.kind {
        inodes := inodes[node := inode];
      }
      var from: Place, to: Place, unlink: bool := *, *, *;
      if !to.Artifact? {
        if unlink {
          names := names - {to};
        } else if from in names && !from.Artifact? {
          names := names[to := names[from]];
        } else if node in inodes && node !in names.Values {
          names := names[to := node];
        }
      }
    }

    /** A call that a deletion survives: closing the quarantine, or making a directory durable. */
    method Attempt(call: Issue) returns (ok: bool)
      modifies this`troubles
      ensures troubles == old(troubles) + if ok then [] else [call]
      ensures calm ==> ok
    {
      var fails: bool := *;
      ok := calm || !fails;
      if !ok {
        troubles := troubles + [call];
      }
    }

    method Describe(node: Node) returns (r: Status)
      requires node in inodes
      ensures r == Status(node, inodes[node], |Naming(names, node)|)
    {
      return Status(node, inodes[node], |Naming(names, node)|);
    }

    /** `os.stat(..., follow_symlinks=False)` */
    method Stat(place: Place) returns (r: StatResult)
      requires Valid()
      modifies this`names, this`inodes
      ensures Valid() && Bounded()
      ensures r.Found? ==>
        var s := r.status;
        && place in names && s == Status(names[place], inodes[names[place]], |Naming(names, names[place])|)
      ensures calm ==> if place in names then r.Found? else r.NotFound?
    {
      Interference();
      if place !in names {
        return NotFound;
      }
      var fails: bool := *;
      if fails && !calm {
        return StatError;
      }
      var status := Describe(names[place]);
      return Found(status);
    }

    /** `os.fstat(artifact)` */
    method StatHeld() returns (r: StatResult)
      requires Valid() && ArtifactFd in descriptors
      modifies this`names, this`inodes, this`looks
      ensures Valid() && Bounded() && !r.NotFound?
      ensures r.Found? ==> r.status == Status(held, inodes[held], |Naming(names, held)|)
      ensures looks == old(looks) + if r.Found? then [Sight(r.status)] else []
      ensures calm ==> r.Found?
    {
      Interference();
      var fails: bool := *;
      if fails && !calm {
        return StatError;
      }
      var status := Describe(held);
      looks := looks + [Sight(status)];
      return Found(status);
    }

    /** `os.open` without following a symbolic link. */
    method Open(name: string) returns (ok: bool)
      requires Valid() && ArtifactFd !in descriptors
      modifies this`names, this`inodes, this`descriptors, this`held, this`looks
      ensures Valid() && Bounded()
      ensures looks == old(looks) + if ok then [Opening(names, name, held)] else []
      ensures descriptors == old(descriptors) + if ok then {ArtifactFd} else {}
      ensures ok ==> Parent(name) in names && held == names[Parent(name)] && !inodes[held].kind.Symlink?
      ensures calm && Parent(name) in names && !inodes[names[Parent(name)]].kind.Symlink? ==> ok
    {
      Interference();
      var fails: bool := *;
      if Parent(name) !in names || inodes[names[Parent(name)]].kind.Symlink? || (fails && !calm) {
        return false;
      }
      held := names[Parent(name)];
      looks := looks + [Opening(names, name, held)];
      descriptors := descriptors + {ArtifactFd};
      return true;
    }

    method Record(after: Links)
      requires Valid() && (forall p :: p in after ==> after[p] in inodes) && (Artifact in after ==> quarantine)
      modifies this`names, this`trace
      ensures Valid() && names == after && trace == old(trace) + [Step(old(names), after)]
    {
      trace := trace + [Step(names, after)];
      names := after;
    }

    /** `os.rename(name, "artifact", ...)` into the empty quarantine. */
    method Isolate(name: string) returns (r: StatResult)
      requires Valid() && quarantine && Artifact !in names
      modifies this`names, this`inodes, this`trace
      ensures Valid()
      ensures !r.Found? ==> trace == old(trace) && Artifact !in names
      ensures r.Found? ==> |trace| == |old(trace)| + 1 && old(trace) <= trace && names == trace[|old(trace)|].after
                           && Artifact in names && Isolates(trace[|old(trace)|], name, names[Artifact])
      ensures inodes == old(inodes) || !calm
      ensures calm && Parent(name) in old(names) ==>
        r.Found? && names == (old(names) - {Parent(name)})[Artifact := old(names)[Parent(name)]]
    {
      Interference();
      if Parent(name) !in names {
        return NotFound;
      }
      var fails: bool := *;
      if fails && !calm {
        return StatError;
      }
      var node := names[Parent(name)];
      Record((names - {Parent(name)})[Artifact := node]);
      var status := Describe(node);
      return Found(status);
    }

    /** `os.link("artifact", name, ...)`: fails when the name is taken. */
    method Relink(name: string) returns (ok: bool)
      requires Valid() && Artifact in names
      modifies this`names, this`inodes, this`trace
      ensures Valid() && Artifact in names && names[Artifact] == old(names)[Artifact]
      ensures !ok ==> trace == old(trace)
      ensures ok ==> |trace| == |old(trace)| + 1 && old(trace) <= trace
                     && Relinks(trace[|old(trace)|], name, old(names)[Artifact])
    {
      Interference();
      var fails: bool := *;
      if Parent(name) in names || fails {
        return false;
      }
      Record(names[Parent(name) := names[Artifact]]);
      return true;
    }

    /** `os.unlink("artifact", dir_fd=quarantine)` */
    method Drop() returns (ok: bool)
      requires Valid() && Artifact in names
      modifies this`names, this`inodes, this`trace
      ensures Valid() && SameKinds()
      ensures !ok ==> trace == old(trace) && Artifact in names && names[Artifact] == old(names)[Artifact]
      ensures ok ==> |trace| == |old(trace)| + 1 && old(trace) <= trace && Artifact !in names
                     && Drops(trace[|old(trace)|], old(names)[Artifact])
                     && forall n :: Alone(old(names), n) ==> Alone(trace[|old(trace)|].before, n)
      ensures calm ==> ok && names == old(names) - {Artifact}
    {
      Interference();
      var fails: bool := *;
      if fails && !calm {
        return false;
      }
      Record(names - {Artifact});
      return true;
    }

    /** `os.rmdir`: only an empty directory goes away. */
    method RemoveQuarantine() returns (ok: bool)
      requires Valid()
      modifies this`names, this`inodes, this`quarantine, this`troubles
      ensures Valid() && Bounded() && quarantine == (old(quarantine) && !ok)
      ensures troubles == old(troubles) + if ok then [] else [Issue.RemoveQuarantine]
      ensures calm && old(quarantine) && Artifact !in names ==> ok
    {
      Interference();
      var fails: bool := *;
      if (fails && !calm) || !quarantine || Artifact in names {
        troubles := troubles + [Issue.RemoveQuarantine];
        return false;
      }
      quarantine := false;
      return true;
    }
  }

  predicate Isolates(s: Step, name: string, node: Node) {
    && Artifact !in s.before && Parent(name) in s.before && s.before[Parent(name)] == node
    && s.after == (s.before - {Parent(name)})[Artifact := node]
  }

  predicate Relinks(s: Step, name: string, node: Node) {
    && Artifact in s.before && s.before[Artifact] == node && Parent(name) !in s.before
    && s.after == s.before[Parent(name) := node]
  }

  predicate Drops(s: Step, node: Node) {
    Artifact in s.before && s.before[Artifact] == node && s.after == s.before - {Artifact}
  }

  /** A refusal after the entry was isolated: relinked before the quarantined link is dropped, or kept there. */
  predicate Refusal(steps: seq<Step>, name: string, node: Node, note: Note) {
    && 1 <= |steps| <= 3 && Isolates(steps[0], name, node)
    && (|steps| >= 2 ==> Relinks(steps[1], name, node))
    && (|steps| == 3 ==> Drops(steps[2], node))
    && match note
       case NotIsolated => false
       case Retained => |steps| == 1
       case SecondLink => |steps| == 2
       case RestoredUnsynced => |steps| == 3
       case Restored => |steps| == 3
  }

  /**
   The descriptor was opened on what the catalog name was then, and two looks at it agree on a single-link regular
   file of the given size.
   */
  predicate Identified(looks: seq<Look>, name: string, node: Node, size: nat) {
    && |looks| == 3 && looks[0].Opening? && looks[0].name == name && looks[0].node == node
    && Parent(name) in looks[0].names && looks[0].names[Parent(name)] == node
    && looks[1] == looks[2] && looks[1].Sight?
    && var s := looks[1].status;
       s.node == node && s.links == 1 && s.inode.kind.Regular? && s.inode.size == size
  }

  /** A deletion: the node isolated is the one opened, and its quarantined link, its last, is dropped. */
  predicate Deletion(steps: seq<Step>, name: string, node: Node) {
    |steps| == 2 && Isolates(steps[0], name, node) && Drops(steps[1], node) && Alone(steps[1].before, node)
  }

  // ----- the protocol

  /** `finish_quarantine` */
  method FinishQuarantine(fs: FileSystem, issues: seq<Issue>, ghost start: seq<Issue>) returns (all: seq<Issue>)
    requires fs.Valid() && fs.troubles == start + issues
    modifies fs`names, fs`inodes, fs`quarantine, fs`descriptors, fs`troubles
    ensures fs.Valid() && fs.SameKinds() && fs.descriptors == old(fs.descriptors) - {QuarantineFd}
    ensures fs.troubles == start + all && (SyncRestored in all <==> SyncRestored in issues)
    ensures fs.quarantine ==> old(fs.quarantine) && RemoveQuarantine in all
    ensures old(Artifact in fs.names) ==>
      fs.quarantine && Artifact in fs.names && fs.names[Artifact] == old(fs.names)[Artifact]
    ensures old(Artifact !in fs.names) ==> Artifact !in fs.names
    ensures fs.calm ==> fs.names == old(fs.names)
    ensures fs.calm && old(Artifact !in fs.names) ==> !fs.quarantine && all == issues
  {
    all := issues;
    if QuarantineFd in fs.descriptors {
      var closed := fs.Attempt(CloseQuarantine);
      if !closed {
        all := all + [CloseQuarantine];
      }
      fs.descriptors := fs.descriptors - {QuarantineFd};
    }
    if !fs.quarantine {
      return;
    }
    var removed := fs.RemoveQuarantine();
    if !removed {
      all := all + [RemoveQuarantine];
      return;
    }
    var synced := fs.Attempt(SyncAfterRemoval);
    if !synced {
      all := all + [SyncAfterRemoval];
    }
  }

  /** `_restore_quarantined_entry` */
  method RestoreQuarantinedEntry(fs: FileSystem, name: string) returns (note: Note)
    requires fs.Valid() && Artifact in fs.names
    modifies fs`names, fs`inodes, fs`trace, fs`troubles
    ensures fs.Valid() && !note.NotIsolated? && old(fs.trace) <= fs.trace
    ensures fs.troubles == old(fs.troubles) + if note.RestoredUnsynced? then [SyncRestored] else []
    ensures
      var node := old(fs.names)[Artifact];
      var steps := fs.trace[|old(fs.trace)|..];
      && (note.Retained? || note.SecondLink? ==> Artifact in fs.names && fs.names[Artifact] == node)
      && (note.Restored? || note.RestoredUnsynced? ==> Artifact !in fs.names)
      && forall first :: Isolates(first, name, node) ==> Refusal([first] + steps, name, node, note)
  {
    ghost var start := fs.trace;
    var linked := fs.Relink(name);
    if !linked {
      assert fs.trace[|start|..] == [];
      return Retained;
    }
    ghost var relink := fs.trace[|start|];
    assert fs.trace == start + [relink];
    var dropped := fs.Drop();
    if !dropped {
      assert fs.trace[|start|..] == [relink];
      return SecondLink;
    }
    assert fs.trace[|start|..] == [relink, fs.trace[|start| + 1]];
    var synced := fs.Attempt(SyncRestored);
    return if synced then Restored else RestoredUnsynced;
  }

  /** `refuse_after_isolation` */
  method RefuseAfterIsolation(fs: FileSystem, name: string, reason: Reason, ghost start: seq<Step>)
    returns (r: Outcome, issues: seq<Issue>)
    requires fs.Valid() && Artifact in fs.names && |fs.trace| == |start| + 1 && start <= fs.trace
    requires Isolates(fs.trace[|start|], name, fs.names[Artifact])
    modifies fs`names, fs`inodes, fs`trace, fs`quarantine, fs`descriptors, fs`troubles
    ensures fs.Valid() && fs.descriptors == old(fs.descriptors) - {QuarantineFd}
    ensures r.Skipped? && start <= fs.trace && fs.troubles == old(fs.troubles) + issues
    ensures SyncRestored in issues <==> r.note.RestoredUnsynced?
    ensures Settled(fs.names, fs.inodes, fs.quarantine, Since(fs, start), name, fs.held, r, issues)
  {
    ghost var first := fs.trace[|start|];
    ghost var node := fs.names[Artifact];
    var note := RestoreQuarantinedEntry(fs, name);
    assert fs.trace[|start|..] == [first] + fs.trace[|start| + 1..];
    issues := if note.RestoredUnsynced? then [SyncRestored] else [];
    issues := FinishQuarantine(fs, issues, old(fs.troubles));
    assert Refused(fs.names, fs.quarantine, fs.trace[|start|..], name, node, note);
    return Skipped(reason, note), issues;
  }

  /** What a finished call leaves and says, given the steps it made and the node its descriptor was opened on. */
  ghost predicate Settled(
    names: Links, inodes: map<Node, Inode>, quarantine: bool, steps: seq<Step>, name: string, held: Node,
    r: Outcome, issues: seq<Issue>)
  {
    && (quarantine ==> RemoveQuarantine in issues)
    && match r
       case Deleted(_) =>
         Deletion(steps, name, held) && Artifact !in names && held in inodes && inodes[held].kind.Regular?
       case Skipped(_, NotIsolated) => steps == [] && Artifact !in names
       case Skipped(_, note) => exists node: Node :: Refused(names, quarantine, steps, name, node, note)
  }

  predicate Refused(names: Links, quarantine: bool, steps: seq<Step>, name: string, node: Node, note: Note) {
    && Refusal(steps, name, node, note)
    && (note.Retained? || note.SecondLink? <==> Artifact in names)
    && (Artifact in names ==> names[Artifact] == node && quarantine)
  }

  /** This process's steps since `start`. */
  ghost function Since(fs: FileSystem, start: seq<Step>): seq<Step>
    reads fs`trace
    requires start <= fs.trace
  {
    fs.trace[|start|..]
  }

  /** `mkdir` of the quarantine under up to sixteen random names, then opening it. */
  method MakeQuarantine(fs: FileSystem) returns (r: Option<Reason>, issues: seq<Issue>)
    requires fs.Valid() && !fs.quarantine && QuarantineFd !in fs.descriptors
    modifies fs`names, fs`inodes, fs`quarantine, fs`descriptors, fs`troubles
    ensures fs.Valid() && Artifact !in fs.names && fs.troubles == old(fs.troubles) + issues
    ensures r.None? ==> fs.quarantine && fs.descriptors == old(fs.descriptors) + {QuarantineFd} && issues == []
    ensures r.Some? ==> fs.descriptors == old(fs.descriptors) && (fs.quarantine ==> RemoveQuarantine in issues)
    ensures fs.SameKinds()
    ensures fs.calm ==> r.None? && fs.names == old(fs.names) && fs.inodes == old(fs.inodes)
  {
    issues := [];
    var attempt := 0;
    while attempt < 16 && !fs.quarantine
      invariant fs.Valid() && Artifact !in fs.names && fs.descriptors == old(fs.descriptors)
      invariant fs.SameKinds() && fs.troubles == old(fs.troubles)
      invariant fs.calm ==> fs.names == old(fs.names) && fs.inodes == old(fs.inodes)
      invariant fs.calm ==> attempt == 0 || fs.quarantine
    {
      fs.Interference();
      var taken: bool, fails: bool := *, *;
      if !taken || fs.calm {
        if fails && !fs.calm {
          return Some(NoQuarantine), [];
        }
        fs.quarantine := true;
      }
      attempt := attempt + 1;
    }
    if !fs.quarantine {
      return Some(NoQuarantine), [];
    }
    var unopened: bool := *;
    if unopened && !fs.calm {
      issues := FinishQuarantine(fs, [], fs.troubles);
      return Some(QuarantineUnopened), issues;
    }
    fs.descriptors := fs.descriptors + {QuarantineFd};
    return None, [];
  }

  /** What a call comes to when nothing fails and nobody else acts. */
  function Expected(names: Links, inodes: map<Node, Inode>, name: string): Outcome
    requires forall p :: p in names ==> names[p] in inodes
  {
    if Parent(name) !in names then Skipped(Missing, NotIsolated)
    else
      var node := names[Parent(name)];
      if inodes[node].kind.Symlink? then Skipped(IsSymlink, NotIsolated)
      else if !inodes[node].kind.Regular? then Skipped(NotRegular, NotIsolated)
      else if |Naming(names, node)| != 1 then Skipped(MultiplyLinked, NotIsolated)
      else Deleted(inodes[node].size)
  }

  /** The checks before anything is moved; on success the artifact descriptor is open and its status is known. */
  method Bind(fs: FileSystem, name: string) returns (r: Result<Status, Reason>)
    requires fs.Valid() && ArtifactFd !in fs.descriptors && Artifact !in fs.names
    modifies fs`names, fs`inodes, fs`descriptors, fs`held, fs`looks
    ensures fs.Valid() && Artifact !in fs.names
    ensures r.Success? ==>
      && |fs.looks| == |old(fs.looks)| + 2 && old(fs.looks) <= fs.looks
      && var first := fs.looks[|old(fs.looks)|];
         && first.Opening? && first.name == name && first.node == fs.held
         && Parent(name) in first.names && first.names[Parent(name)] == fs.held
         && fs.looks[|old(fs.looks)| + 1] == Sight(r.value)
    ensures old(fs.descriptors) <= fs.descriptors <= old(fs.descriptors) + {ArtifactFd}
    ensures r.Success? ==>
      var s := r.value;
      && ArtifactFd in fs.descriptors && s.node == fs.held && s.links == 1
      && s.inode.kind.Regular? && fs.inodes[fs.held].kind.Regular?
    ensures fs.calm ==>
      && fs.names == old(fs.names) && fs.inodes == old(fs.inodes)
      && match Expected(fs.names, fs.inodes, name)
         case Skipped(reason, _) => r == Failure(reason)
         case Deleted(size) =>
           && Parent(name) in fs.names && fs.held == fs.names[Parent(name)]
           && r == Success(Status(fs.held, fs.inodes[fs.held], 1)) && |Naming(fs.names, fs.held)| == 1
  {
    var observed := fs.Stat(Parent(name));
    if !observed.Found? {
      return Failure(if observed.NotFound? then Missing else Uninspectable);
    }
    if observed.status.inode.kind.Symlink? {
      return Failure(IsSymlink);
    }
    if !observed.status.inode.kind.Regular? {
      return Failure(NotRegular);
    }
    if observed.status.links != 1 {
      return Failure(MultiplyLinked);
    }
    var accessible := fs.Open(name);
    if !accessible {
      return Failure(CannotOpen);
    }
    var bound := fs.StatHeld();
    if !bound.Found? {
      return Failure(CannotBind);
    }
    if observed.status != bound.status || !bound.status.inode.kind.Regular? || bound.status.links != 1 {
      return Failure(Changed);
    }
    return Success(bound.status);
  }

  /** The isolated entry must still be the file that was opened, with the link in the quarantine as its only one. */
  method Revalidate(fs: FileSystem, bound: Status) returns (refused: Option<Reason>)
    requires fs.Valid() && Artifact in fs.names && ArtifactFd in fs.descriptors && bound.node == fs.held
    modifies fs`names, fs`inodes, fs`looks
    ensures fs.Valid() && fs.Bounded() && (refused.None? ==> fs.looks == old(fs.looks) + [Sight(bound)])
    ensures refused.None? ==>
      fs.names[Artifact] == fs.held && Alone(fs.names, fs.held) && fs.inodes[fs.held].kind.Regular?
    ensures
      var same := fs.names[Artifact] == fs.held && |Naming(fs.names, fs.held)| == 1
        && bound == Status(fs.held, fs.inodes[fs.held], 1) && bound.inode.kind.Regular?;
      fs.calm && same ==> refused.None?
  {
    var isolated := fs.Stat(Artifact);
    if !isolated.Found? {
      return Some(CannotRevalidate);
    }
    if isolated.status.links == 1 {
      OneLinkIsAlone(fs.names, isolated.status.node);
    }
    var final := fs.StatHeld();
    if !final.Found? {
      return Some(CannotRevalidate);
    }
    if bound != final.status || isolated.status != final.status || !isolated.status.inode.kind.Regular?
       || isolated.status.links != 1 {
      return Some(Changed);
    }
    return None;
  }

  /** From the isolating rename on. */
  method IsolateAndDelete(fs: FileSystem, name: string, bound: Status) returns (r: Outcome, issues: seq<Issue>)
    requires fs.Valid() && fs.quarantine && Artifact !in fs.names
    requires fs.descriptors == {ParentFd, ArtifactFd, QuarantineFd}
    requires bound.node == fs.held && fs.inodes[fs.held].kind.Regular?
    modifies fs`names, fs`inodes, fs`trace, fs`quarantine, fs`descriptors, fs`looks, fs`troubles
    ensures fs.Valid() && fs.descriptors == {ParentFd, ArtifactFd} && fs.troubles == old(fs.troubles) + issues
    ensures r.Deleted? ==> fs.looks == old(fs.looks) + [Sight(bound)]
    ensures old(fs.trace) <= fs.trace
    ensures Settled(fs.names, fs.inodes, fs.quarantine, Since(fs, old(fs.trace)), name, fs.held, r, issues)
    ensures r.Deleted? ==> r.size == bound.inode.size
    ensures
      var names := old(fs.names);
      var same := Parent(name) in names && names[Parent(name)] == fs.held && |Naming(names, fs.held)| == 1
        && bound == Status(fs.held, old(fs.inodes)[fs.held], 1);
      fs.calm && same ==> r.Deleted? && issues == [] && fs.names == names - {Parent(name)} && !fs.quarantine
  {
    hide Refusal, Refused, Naming;
    ghost var start := fs.trace;
    var moved := fs.Isolate(name);
    if !moved.Found? {
      issues := FinishQuarantine(fs, [], fs.troubles);
      assert fs.trace[|start|..] == [];
      return Skipped(if moved.NotFound? then Disappeared else CannotIsolate, NotIsolated), issues;
    }
    if fs.calm && Parent(name) in old(fs.names) && |Naming(old(fs.names), old(fs.names)[Parent(name)])| == 1 {
      RenameKeepsTheLink(old(fs.names), name);
    }
    r, issues := DeleteIsolated(fs, name, bound, start);
  }

  /** What follows the isolating rename. */
  method DeleteIsolated(fs: FileSystem, name: string, bound: Status, ghost start: seq<Step>)
    returns (r: Outcome, issues: seq<Issue>)
    requires fs.Valid() && fs.quarantine && fs.descriptors == {ParentFd, ArtifactFd, QuarantineFd}
    requires bound.node == fs.held && Artifact in fs.names && |fs.trace| == |start| + 1 && start <= fs.trace
    requires Isolates(fs.trace[|start|], name, fs.names[Artifact])
    modifies fs`names, fs`inodes, fs`trace, fs`quarantine, fs`descriptors, fs`looks, fs`troubles
    ensures fs.Valid() && fs.descriptors == {ParentFd, ArtifactFd} && fs.troubles == old(fs.troubles) + issues
    ensures r.Deleted? ==> fs.looks == old(fs.looks) + [Sight(bound)] && r.size == bound.inode.size
    ensures start <= fs.trace
    ensures Settled(fs.names, fs.inodes, fs.quarantine, Since(fs, start), name, fs.held, r, issues)
    ensures
      var names := old(fs.names);
      var same := names[Artifact] == fs.held && |Naming(names, fs.held)| == 1
        && bound == Status(fs.held, old(fs.inodes)[fs.held], 1) && bound.inode.kind.Regular?;
      fs.calm && same ==> r.Deleted? && issues == [] && fs.names == names - {Artifact} && !fs.quarantine
  {
    hide Refusal, Refused, Naming;
    ghost var first := fs.trace[|start|];
    var refused := Revalidate(fs, bound);
    if refused.Some? {
      r, issues := RefuseAfterIsolation(fs, name, refused.value, start);
      return;
    }
    var dropped := fs.Drop();
    if !dropped {
      r, issues := RefuseAfterIsolation(fs, name, CannotDelete, start);
      return;
    }
    assert fs.trace[|start|..] == [first, fs.trace[|start| + 1]];
    var synced := fs.Attempt(SyncQuarantine);
    issues := FinishQuarantine(fs, if synced then [] else [SyncQuarantine], old(fs.troubles));
    return Deleted(bound.inode.size), issues;
  }

  /** What `_delete_resource` does with the artifact's directory open; its `finally` closes what is left. */
  method DeleteInParent(fs: FileSystem, name: string) returns (r: Outcome, issues: seq<Issue>)
    requires fs.Valid() && !fs.quarantine && fs.descriptors == {ParentFd}
    modifies fs
    ensures fs.Valid() && {ParentFd} <= fs.descriptors <= {ParentFd, ArtifactFd}
    ensures old(fs.trace) <= fs.trace && fs.troubles == old(fs.troubles) + issues
    ensures Settled(fs.names, fs.inodes, fs.quarantine, Since(fs, old(fs.trace)), name, fs.held, r, issues)
    ensures r.Deleted? ==>
      old(fs.looks) <= fs.looks && Identified(fs.looks[|old(fs.looks)|..], name, fs.held, r.size)
    ensures fs.calm ==>
      && r == Expected(old(fs.names), old(fs.inodes), name) && issues == [] && !fs.quarantine
      && fs.names == if r.Deleted? then old(fs.names) - {Parent(name)} else old(fs.names)
  {
    hide Refusal, Deletion, Refused, Naming;
    ghost var start, looked := fs.trace, fs.looks;
    assert fs.trace[|start|..] == [];
    var bound := Bind(fs, name);
    if bound.Failure? {
      return Skipped(bound.error, NotIsolated), [];
    }
    assert fs.looks == looked + [fs.looks[|looked|], Sight(bound.value)];
    var failed, early := MakeQuarantine(fs);
    if failed.Some? {
      return Skipped(failed.value, NotIsolated), early;
    }
    r, issues := IsolateAndDelete(fs, name, bound.value);
    if r.Deleted? {
      assert fs.looks[|looked|..] == [fs.looks[|looked|], Sight(bound.value), Sight(bound.value)];
    }
  }

  /**
   `_delete_resource`: a deletion removed the single-link regular file that was opened; a refusal kept or relinked
   whatever was isolated; a quarantine that survives is reported; no descriptor is left open.  The file deleted is the
   one opened at the catalog name, and the size reported is what two looks at the open file agreed on.  The issues are
   the failures of the closing, removing and synchronising calls, all of them and in order.  When nothing
   fails and nobody else acts, the outcome is the expected one and the entry is all that goes.
   */
  method DeleteResource(fs: FileSystem, name: string) returns (r: Outcome, issues: seq<Issue>)
    requires fs.Valid() && !fs.quarantine && fs.descriptors == {}
    modifies fs
    ensures fs.Valid() && fs.descriptors == {} && old(fs.trace) <= fs.trace
    ensures fs.troubles == old(fs.troubles) + issues
    ensures Settled(fs.names, fs.inodes, fs.quarantine, Since(fs, old(fs.trace)), name, fs.held, r, issues)
    ensures r.Deleted? ==>
      old(fs.looks) <= fs.looks && Identified(fs.looks[|old(fs.looks)|..], name, fs.held, r.size)
    ensures fs.calm ==>
      && r == Expected(old(fs.names), old(fs.inodes), name) && issues == [] && !fs.quarantine
      && fs.names == if r.Deleted? then old(fs.names) - {Parent(name)} else old(fs.names)
  {
    hide Refusal, Deletion, Refused, Naming, Identified;
    assert fs.trace[|fs.trace|..] == [];
    var missing: bool, unsafe: bool := *, *;
    if (missing || unsafe) && !fs.calm {
      return Skipped(if missing then Missing else UnsafePath, NotIsolated), [];
    }
    fs.descriptors := {ParentFd};
    r, issues := DeleteInParent(fs, name);
    if ArtifactFd in fs.descriptors {
      fs.descriptors := fs.descriptors - {ArtifactFd};
    }
    fs.descriptors := fs.descriptors - {ParentFd};
    assert fs.descriptors == {};
  }

  // ----- what the steps mean

  /** Every link outside the quarantine, other than the isolated one, survives each step of a call unchanged. */
  lemma OtherLinksAreSpared(steps: seq<Step>, name: string, node: Node, note: Note, i: nat, p: Place)
    requires Refusal(steps, name, node, note) || Deletion(steps, name, node)
    requires i < |steps| && p in steps[i].before && !p.Artifact? && (i == 0 ==> p != Parent(name))
    ensures p in steps[i].after && steps[i].after[p] == steps[i].before[p]
  {
  }

  /** With nobody else about, one step follows directly on the other. */
  predicate Undisturbed(steps: seq<Step>) {
    forall i :: 0 < i < |steps| ==> steps[i].before == steps[i - 1].after
  }

  /**
   Conservation: no step of a call takes the last link of any file, except the final one of a deletion, and the
   dropping of the quarantined link after somebody else has unlinked the restored one.
   */
  lemma LastLinksAreKept(steps: seq<Step>, name: string, node: Node, note: Note, i: nat, other: Node)
    requires (Refusal(steps, name, node, note) || Deletion(steps, name, node)) && i < |steps|
    requires Naming(steps[i].before, other) != {}
    ensures Naming(steps[i].after, other) == {} <==>
            other == node && Drops(steps[i], node) && Alone(steps[i].before, node)
  {
    var before, after := steps[i].before, steps[i].after;
    var p :| p in Naming(before, other);
    if i == 0 {
      assert p == Parent(name) ==> Artifact in Naming(after, other);
      assert p != Parent(name) ==> p in Naming(after, other);
      assert Artifact !in before;
    } else if Relinks(steps[i], name, node) && !Drops(steps[i], node) {
      assert p in Naming(after, other);
    } else {
      assert Drops(steps[i], node);
      if other != node {
        assert p in Naming(after, other);
      } else if !Alone(before, node) {
        var q :| q in before && before[q] == node && q != Artifact;
        assert q in Naming(after, node);
      } else {
        assert forall q :: q in after ==> q in before && before[q] == after[q];
      }
    }
  }

  /** A refused call loses nothing: alone, it ends with the artifact under its name or in the quarantine. */
  lemma RefusalKeepsTheFile(steps: seq<Step>, name: string, node: Node, note: Note)
    requires Refusal(steps, name, node, note) && Undisturbed(steps)
    ensures
      var before, after := steps[0].before, steps[|steps| - 1].after;
      match note
      case Retained => after == (before - {Parent(name)})[Artifact := node]
      case SecondLink => after == before[Artifact := node]
      case _ => after == before
  {
    var before := steps[0].before;
    if |steps| >= 2 {
      assert steps[1].before == steps[0].after;
      assert steps[1].after == before[Artifact := node];
    }
    if |steps| == 3 {
      assert steps[2].before == steps[1].after;
      assert before[Artifact := node] - {Artifact} == before;
    }
  }

  /** A deletion leaves no link to the deleted file, and alone removes exactly the one entry. */
  lemma DeletionRemovesTheLastLink(steps: seq<Step>, name: string, node: Node)
    requires Deletion(steps, name, node)
    ensures Naming(steps[1].after, node) == {}
    ensures Undisturbed(steps) ==> steps[1].after == steps[0].before - {Parent(name)}
  {
    var last := steps[1];
    forall p | p in last.after ensures last.after[p] != node {
      assert p in last.before && last.before[p] == last.after[p];
    }
    if Undisturbed(steps) {
      assert last.before == steps[0].after;
    }
  }
}
