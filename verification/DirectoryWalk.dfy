/**
 The no-follow directory walks of isopropyl/bootloaders.py.  Every system call may fail, other processes may rework
 the tree between any two calls, and a close may report an error although the descriptor is gone.
 */
module DirectoryWalk {
  import opened Wrappers

  type Node = nat
  type Fd = nat

  datatype Kind = Directory | Symlink | Other

  /** A tree: the kinds of its nodes and the directories' entries. */
  datatype Tree = Tree(kinds: map<Node, Kind>, entries: map<Node, map<string, Node>>)

  /** A successful `os.open(name, O_DIRECTORY | O_NOFOLLOW, dir_fd=parent)`, with the tree it was made in. */
  datatype Hop = Hop(tree: Tree, parent: Node, name: string, child: Node)

  /** A successful `os.mkdir(name, dir_fd=parent)`, with the trees before and after it. */
  datatype Making = Making(before: Tree, after: Tree, parent: Node, name: string, node: Node)

  /** What was opened was, at that moment, the entry of that name, and a directory. */
  predicate Real(hop: Hop) {
    && hop.parent in hop.tree.entries && hop.name in hop.tree.entries[hop.parent]
    && hop.tree.entries[hop.parent][hop.name] == hop.child
    && hop.child in hop.tree.kinds && hop.tree.kinds[hop.child].Directory?
  }

  /** A new, empty directory at a name that was free, and nothing else. */
  predicate AddsFreeName(m: Making) {
    && m.parent in m.before.entries && m.name !in m.before.entries[m.parent]
    && m.node !in m.before.kinds
    && m.after.kinds == m.before.kinds[m.node := Directory]
    && m.after.entries ==
       m.before.entries[m.node := map[]][m.parent := m.before.entries[m.parent][m.name := m.node]]
  }

  lemma MakingSparesTheRest(m: Making, d: Node, name: string)
    requires AddsFreeName(m) && (forall k :: k in m.before.entries ==> k in m.before.kinds)
    requires d in m.before.entries && name in m.before.entries[d]
    ensures d in m.after.entries && name in m.after.entries[d]
    ensures m.after.entries[d][name] == m.before.entries[d][name]
  {
  }

  datatype OpenResult = Opened(fd: Fd) | NotFound | OpenError
  datatype MkdirResult = Created | Exists | MkdirError

  datatype Refusal = Missing | Unsafe | OsError

  /** `components` is `path.parts[1:]`; pathlib has already dropped empty and "." parts of a lexical path. */
  datatype Path = Path(anchor: Anchor, components: seq<string>)

  /** What comes before the components: nothing, "/", or the "//" that pathlib and `normpath` keep. */
  datatype Anchor = Relative | Root | DoubleRoot

  predicate Plain(name: string) {
    name != "" && name != "." && name != ".."
  }

  /** Where a path leads: to a directory, to a free name, or to something that cannot be walked through. */
  datatype Resolution = At(node: Node) | Gone | Blocked

  function Step(
    kinds: map<Node, Kind>, entries: map<Node, map<string, Node>>, directory: Node, name: string): Resolution
  {
    if !Plain(name) then Blocked
    else if directory !in entries || name !in entries[directory] then Gone
    else
      var child := entries[directory][name];
      if child in kinds && kinds[child].Directory? then At(child) else Blocked
  }

  /** The reference definition of a walk over a tree that stands still. */
  function Resolve(
    kinds: map<Node, Kind>, entries: map<Node, map<string, Node>>, from: Node, names: seq<string>): Resolution
  {
    if names == [] then At(from)
    else
      var before := Resolve(kinds, entries, from, names[..|names| - 1]);
      if before.At? then Step(kinds, entries, before.node, names[|names| - 1]) else before
  }

  class FileSystem {
    const root: Node
    var kinds: map<Node, Kind>
    var entries: map<Node, map<string, Node>>
    var descriptors: map<Fd, Node>
    /** No other process touches the tree. */
    const quiet: bool
    /** No system call fails other than for what it finds. */
    const reliable: bool
    /** Every directory opened by name by this process, and every one made, in order. */
    ghost var hops: seq<Hop>
    ghost var made: seq<Making>

    ghost predicate Valid()
      reads this
    {
      && root in kinds && kinds[root].Directory?
      && (forall d :: d in entries <==> d in kinds && kinds[d].Directory?)
      && (forall d, n :: d in entries && n in entries[d] ==> entries[d][n] in kinds)
      && (forall f :: f in descriptors ==> descriptors[f] in kinds && kinds[descriptors[f]].Directory?)
    }

    ghost function Now(): Tree
      reads this`kinds, this`entries
    {
      Tree(kinds, entries)
    }

    /** A node never changes its kind, and with nobody else about, no existing entry is changed or removed. */
    twostate predicate Grown()
      reads this
    {
      && (forall n :: n in old(kinds) ==> n in kinds && kinds[n] == old(kinds)[n])
      && (quiet ==> forall d, n :: d in old(entries) && n in old(entries)[d] ==>
            d in entries && n in entries[d] && entries[d][n] == old(entries)[d][n])
    }

    twostate predicate SameTree()
      reads this
    {
      kinds == old(kinds) && entries == old(entries)
    }

    ghost predicate Empty(directory: Node)
      reads this
    {
      directory in entries && entries[directory] == map[]
    }

    /** Where `name` leads from a directory. */
    ghost function Next(directory: Node, name: string): Resolution
      reads this
    {
      Step(kinds, entries, directory, name)
    }

    /** Other processes create, link, replace and unlink what they like. */
    method Interference()
      requires Valid()
      modifies this`kinds, this`entries
      ensures Valid() && Grown() && (quiet ==> SameTree())
    {
      var steps: nat := *;
      while steps > 0 && !quiet
        invariant Valid() && Grown() && (quiet ==> SameTree())
      {
        var node: Node, kind: Kind := *, *;
        if node !in kinds {
          AddNode(node, kind);
        }
        var directory: Node, name: string, remove: bool := *, *, *;
        if directory in entries {
          Rebind(directory, if remove then entries[directory] - {name} else entries[directory][name := node]);
        }
        steps := steps - 1;
      }
    }

    method AddNode(node: Node, kind: Kind)
      requires Valid() && node !in kinds
      modifies this`kinds, this`entries
      ensures Valid() && Grown()
      ensures kinds == old(kinds)[node := kind]
      ensures entries == if kind.Directory? then old(entries)[node := map[]] else old(entries)
    {
      kinds := kinds[node := kind];
      if kind.Directory? {
        entries := entries[node := map[]];
      }
    }

    method Rebind(directory: Node, content: map<string, Node>)
      requires Valid() && directory in entries
      requires forall n :: n in content ==> content[n] in kinds
      modifies this`entries
      ensures Valid() && entries == old(entries)[directory := content]
    {
      entries := entries[directory := content];
    }

    /** A descriptor number not in use. */
    function Unused(bound: Fd): (f: Fd)
      reads this
      ensures f !in descriptors
    {
      FreshBelow(descriptors.Keys, bound)
    }

    method OpenRoot() returns (r: OpenResult)
      requires Valid()
      modifies this`kinds, this`entries, this`descriptors
      ensures Valid() && Grown() && !r.NotFound?
      ensures r.Opened? ==> r.fd !in old(descriptors) && descriptors == old(descriptors)[r.fd := root]
      ensures !r.Opened? ==> descriptors == old(descriptors)
      ensures (quiet ==> SameTree()) && (reliable ==> r.Opened?)
    {
      Interference();
      var fails: bool := *;
      if fails && !reliable {
        return OpenError;
      }
      var fd := Unused(0);
      descriptors := descriptors[fd := root];
      return Opened(fd);
    }

    /** Opens the directory called `name`; a symbolic link or another kind of file is an error, not followed. */
    method OpenNow(directory: Fd, name: string) returns (r: OpenResult)
      requires Valid() && directory in descriptors
      modifies this`descriptors, this`hops
      ensures Valid()
      ensures r.Opened? ==> Hopped(old(descriptors), old(hops), old(descriptors)[directory], name, r.fd)
      ensures !r.Opened? ==> descriptors == old(descriptors) && hops == old(hops)
      ensures Plain(name) ==>
        var next := Next(old(descriptors)[directory], name);
        && (r.Opened? ==> next == At(descriptors[r.fd]))
        && (r.NotFound? <==> next == Gone)
        && (reliable ==> (r.OpenError? <==> next == Blocked))
    {
      var parent := descriptors[directory];
      if name !in entries[parent] {
        return NotFound;
      }
      var fails: bool := *;
      var child := entries[parent][name];
      if (fails && !reliable) || !kinds[child].Directory? {
        return OpenError;
      }
      var fd := Unused(0);
      hops := hops + [Hop(Now(), parent, name, child)];
      descriptors := descriptors[fd := child];
      return Opened(fd);
    }

    /** One more descriptor, opened by a real hop in the tree as it is. */
    ghost predicate Hopped(before: map<Fd, Node>, start: seq<Hop>, parent: Node, name: string, fd: Fd)
      reads this
    {
      && fd !in before && fd in descriptors && descriptors == before[fd := descriptors[fd]]
      && hops == start + [Hop(Now(), parent, name, descriptors[fd])]
      && Real(Hop(Now(), parent, name, descriptors[fd]))
    }

    method OpenAt(directory: Fd, name: string) returns (r: OpenResult)
      requires Valid() && directory in descriptors
      modifies this`kinds, this`entries, this`descriptors, this`hops
      ensures Valid() && Grown()
      ensures r.Opened? ==> Hopped(old(descriptors), old(hops), old(descriptors)[directory], name, r.fd)
      ensures !r.Opened? ==> descriptors == old(descriptors) && hops == old(hops)
      ensures quiet ==> SameTree()
      ensures quiet && Plain(name) ==>
        var next := Next(old(descriptors)[directory], name);
        && (r.Opened? ==> next == At(descriptors[r.fd]))
        && (r.NotFound? <==> next == Gone)
        && (reliable ==> (r.OpenError? <==> next == Blocked))
    {
      Interference();
      r := OpenNow(directory, name);
    }

    /** Makes a directory only where the name is free. */
    method MkdirNow(directory: Fd, name: string) returns (r: MkdirResult)
      requires Valid() && directory in descriptors
      modifies this`kinds, this`entries, this`made
      ensures Valid() && Grown()
      ensures !r.Created? ==> SameTree() && made == old(made)
      ensures r.Exists? <==> name in old(entries)[descriptors[directory]]
      ensures r.MkdirError? ==> !reliable
      ensures r.Created? ==> Logged(old(Now()), old(made), descriptors[directory], name)
    {
      var parent := descriptors[directory];
      if name in entries[parent] {
        return Exists;
      }
      var fails: bool := *;
      if fails && !reliable {
        return MkdirError;
      }
      var node := FreshBelow(kinds.Keys, 0);
      ghost var before := Now();
      AddNode(node, Directory);
      Rebind(parent, entries[parent][name := node]);
      made := made + [Making(before, Now(), parent, name, node)];
      return Created;
    }

    /** One more making, from the given tree to the tree as it is. */
    ghost predicate Logged(before: Tree, start: seq<Making>, parent: Node, name: string)
      reads this
    {
      && |made| == |start| + 1 && start <= made
      && made[|start|] == Making(before, Now(), parent, name, made[|start|].node) && AddsFreeName(made[|start|])
    }

    method MkdirAt(directory: Fd, name: string) returns (r: MkdirResult)
      requires Valid() && directory in descriptors
      modifies this`kinds, this`entries, this`made
      ensures Valid() && Grown() && OnlyAdds(old(made), made)
      ensures quiet && Plain(name) && old(Next(descriptors[directory], name)) == Gone ==>
        && !r.Exists? && (reliable ==> r.Created?)
        && (r.Created? ==> Next(descriptors[directory], name).At? && Empty(Next(descriptors[directory], name).node))
    {
      Interference();
      r := MkdirNow(directory, name);
    }

    /** The descriptor is released even when the call reports an error; closing one twice is not possible. */
    method Close(fd: Fd) returns (ok: bool)
      requires Valid() && fd in descriptors
      modifies this`descriptors
      ensures Valid() && descriptors == old(descriptors) - {fd} && (reliable ==> ok)
    {
      descriptors := descriptors - {fd};
      ok := *;
      ok := ok || reliable;
    }
  }

  /** Each directory made since was put at a free name, and changed nothing else. */
  ghost predicate OnlyAdds(start: seq<Making>, made: seq<Making>) {
    start <= made && forall i :: |start| <= i < |made| ==> AddsFreeName(made[i])
  }

  /** A number outside a finite set. */
  function FreshBelow(used: set<nat>, bound: nat): (n: nat)
    ensures n !in used
    decreases |set u | u in used && u >= bound|
  {
    if bound !in used then bound
    else
      assert (set u | u in used && u >= bound + 1) == (set u | u in used && u >= bound) - {bound};
      FreshBelow(used, bound + 1)
  }

  /** Where the first `i` hops end. */
  function Reached(hops: seq<Hop>, i: nat, from: Node): Node
    requires i <= |hops|
  {
    if i == 0 then from else hops[i - 1].child
  }

  /** The hops lead from `from` to `to`, one for each name, each to what that name was when it was opened. */
  predicate Leads(hops: seq<Hop>, names: seq<string>, from: Node, to: Node) {
    && |hops| == |names|
    && (forall i {:trigger Reached(hops, i, from)} ::
          0 <= i < |hops| ==> hops[i].name == names[i] && hops[i].parent == Reached(hops, i, from) && Real(hops[i]))
    && to == Reached(hops, |hops|, from)
  }

  lemma LeadsOn(hops: seq<Hop>, names: seq<string>, from: Node, to: Node, hop: Hop)
    requires Leads(hops, names, from, to) && hop.parent == to && Real(hop)
    ensures Leads(hops + [hop], names + [hop.name], from, hop.child)
  {
    var longer := hops + [hop];
    forall i | 0 <= i < |longer|
      ensures longer[i].name == (names + [hop.name])[i] && longer[i].parent == Reached(longer, i, from)
      ensures Real(longer[i])
    {
      assert Reached(longer, i, from) == Reached(hops, i, from);
    }
  }

  /** Where a walk stands: one more descriptor than at its start, reached from the root by the names so far. */
  ghost predicate Standing(
    fs: FileSystem, before: map<Fd, Node>, start: seq<Hop>, descriptor: Fd, names: seq<string>)
    reads fs
  {
    && descriptor !in before && descriptor in fs.descriptors
    && fs.descriptors - {descriptor} == before
    && start <= fs.hops
    && Leads(fs.hops[|start|..], names, fs.root, fs.descriptors[descriptor])
  }

  /** Replaces the held descriptor by the child's; if the close fails both are given up. */
  method Swap(fs: FileSystem, previous: Fd, child: Fd) returns (ok: bool)
    requires fs.Valid() && previous in fs.descriptors && child in fs.descriptors && previous != child
    modifies fs`descriptors
    ensures fs.Valid()
    ensures fs.descriptors == old(fs.descriptors) - if ok then {previous} else {previous, child}
    ensures fs.reliable ==> ok
  {
    ok := fs.Close(previous);
    if !ok {
      var _ := fs.Close(child);
      assert fs.descriptors == old(fs.descriptors) - {previous, child};
    }
  }

  /** What opening a child comes to on a tree that stands still. */
  ghost predicate Follows(r: OpenResult, create: bool, reliable: bool, next: Resolution) {
    && (r.Opened? ==> next.At? || (create && next.Gone?))
    && (r.NotFound? <==> next.Gone? && !create)
    && (reliable && (next.At? || (create && next.Gone?)) ==> r.Opened?)
  }

  /** The child directory, made first by the creating walk when its name is free. */
  method OpenChild(fs: FileSystem, directory: Fd, name: string, create: bool) returns (r: OpenResult)
    requires fs.Valid() && directory in fs.descriptors
    modifies fs`kinds, fs`entries, fs`descriptors, fs`hops, fs`made
    ensures fs.Valid() && fs.Grown() && OnlyAdds(old(fs.made), fs.made) && (!create ==> fs.made == old(fs.made))
    ensures r.Opened? ==> fs.Hopped(old(fs.descriptors), old(fs.hops), old(fs.descriptors)[directory], name, r.fd)
    ensures !r.Opened? ==> fs.descriptors == old(fs.descriptors) && fs.hops == old(fs.hops)
    ensures create ==> !r.NotFound?
    ensures fs.quiet && Plain(name) ==>
      var next := old(fs.Next(fs.descriptors[directory], name));
      && Follows(r, create, fs.reliable, next)
      && (!create || next != Gone ==> fs.SameTree())
      && (r.Opened? ==> fs.Next(old(fs.descriptors[directory]), name) == At(fs.descriptors[r.fd]))
      && (r.Opened? && next == Gone ==> fs.Empty(fs.descriptors[r.fd]))
  {
    r := fs.OpenAt(directory, name);
    if r.NotFound? && create {
      r := MakeAndOpen(fs, directory, name);
    }
  }

  method MakeAndOpen(fs: FileSystem, directory: Fd, name: string) returns (r: OpenResult)
    requires fs.Valid() && directory in fs.descriptors
    modifies fs`kinds, fs`entries, fs`descriptors, fs`hops, fs`made
    ensures fs.Valid() && fs.Grown() && !r.NotFound? && OnlyAdds(old(fs.made), fs.made)
    ensures r.Opened? ==> fs.Hopped(old(fs.descriptors), old(fs.hops), old(fs.descriptors)[directory], name, r.fd)
    ensures !r.Opened? ==> fs.descriptors == old(fs.descriptors) && fs.hops == old(fs.hops)
    ensures fs.quiet && Plain(name) && old(fs.Next(fs.descriptors[directory], name)) == Gone ==>
      && (fs.reliable ==> r.Opened?)
      && (r.Opened? ==> fs.Next(old(fs.descriptors[directory]), name) == At(fs.descriptors[r.fd])
                        && fs.Empty(fs.descriptors[r.fd]))
  {
    var made := fs.MkdirAt(directory, name);
    if made.MkdirError? {
      return OpenError;
    }
    ghost var next := fs.Next(fs.descriptors[directory], name);
    r := fs.OpenAt(directory, name);
    if r.NotFound? {
      r := OpenError;
    }
  }

  /** One component of either walk; `create` is the creating variant. */
  method Enter(
    fs: FileSystem, descriptor: Fd, name: string, create: bool,
    ghost before: map<Fd, Node>, ghost start: seq<Hop>, ghost names: seq<string>)
    returns (r: Result<Fd, Refusal>)
    requires fs.Valid() && Standing(fs, before, start, descriptor, names)
    modifies fs`kinds, fs`entries, fs`descriptors, fs`hops, fs`made
    ensures fs.Valid() && fs.Grown() && OnlyAdds(old(fs.made), fs.made) && (!create ==> fs.made == old(fs.made))
    ensures r.Success? ==> Standing(fs, before, start, r.value, names + [name])
    ensures r.Success? ==> Plain(name)
    ensures r.Failure? ==> fs.descriptors == before && (create ==> !r.error.Missing?)
    ensures fs.quiet ==>
      var here, next := old(fs.descriptors[descriptor]), old(fs.Next(fs.descriptors[descriptor], name));
      && (r.Success? ==> fs.Next(here, name) == At(fs.descriptors[r.value]))
      && (!create || next != Gone ==> fs.SameTree())
      && (r.Success? && next == Gone ==> fs.Empty(fs.descriptors[r.value]))
      && (r.Success? ==> next.At? || (create && next.Gone?))
      && (fs.reliable && r.Failure? ==> !next.At? && (create ==> next.Blocked?))
      && (fs.reliable && r.Failure? ==> r.error == if next.Gone? then Missing else Unsafe)
  {
    hide Leads, Real, FileSystem.Valid, AddsFreeName;
    if !Plain(name) {
      var ok := fs.Close(descriptor);
      return Failure(if ok then Unsafe else OsError);
    }
    var child := OpenChild(fs, descriptor, name, create);
    if !child.Opened? {
      var ok := fs.Close(descriptor);
      return Failure(if !ok then OsError else if child.NotFound? then Missing else Unsafe);
    }
    ghost var hop := fs.hops[|fs.hops| - 1];
    StandingOn(old(fs.hops), start, names, fs.root, old(fs.descriptors[descriptor]), hop);
    var swapped := Swap(fs, descriptor, child.fd);
    if !swapped {
      return Failure(OsError);
    }
    return Success(child.fd);
  }

  lemma StandingOn(hops: seq<Hop>, start: seq<Hop>, names: seq<string>, from: Node, to: Node, hop: Hop)
    requires start <= hops && Leads(hops[|start|..], names, from, to) && hop.parent == to && Real(hop)
    ensures start <= hops + [hop]
    ensures Leads((hops + [hop])[|start|..], names + [hop.name], from, hop.child)
  {
    LeadsOn(hops[|start|..], names, from, to, hop);
    assert (hops + [hop])[|start|..] == hops[|start|..] + [hop];
  }

  lemma {:induction false} ResolveGrows(
    kinds: map<Node, Kind>, entries: map<Node, map<string, Node>>, kinds': map<Node, Kind>,
    entries': map<Node, map<string, Node>>, from: Node, names: seq<string>)
    requires forall n :: n in kinds ==> n in kinds' && kinds'[n] == kinds[n]
    requires forall d, n :: d in entries && n in entries[d] ==>
      d in entries' && n in entries'[d] && entries'[d][n] == entries[d][n]
    requires Resolve(kinds, entries, from, names).At?
    ensures Resolve(kinds', entries', from, names) == Resolve(kinds, entries, from, names)
  {
    if names != [] {
      ResolveGrows(kinds, entries, kinds', entries', from, names[..|names| - 1]);
    }
  }

  lemma {:induction false} ResolvedIsPlain(
    kinds: map<Node, Kind>, entries: map<Node, map<string, Node>>, from: Node, names: seq<string>)
    requires Resolve(kinds, entries, from, names).At?
    ensures forall c :: c in names ==> Plain(c)
  {
    if names != [] {
      ResolvedIsPlain(kinds, entries, from, names[..|names| - 1]);
      assert names == names[..|names| - 1] + [names[|names| - 1]];
    }
  }

  /** Once a walk has run out of directories, further names change nothing. */
  lemma {:induction false} PrefixDecides(
    kinds: map<Node, Kind>, entries: map<Node, map<string, Node>>, from: Node, names: seq<string>, k: nat)
    requires k <= |names| && !Resolve(kinds, entries, from, names[..k]).At?
    ensures Resolve(kinds, entries, from, names) == Resolve(kinds, entries, from, names[..k])
  {
    if k < |names| {
      assert names[..|names| - 1][..k] == names[..k];
      PrefixDecides(kinds, entries, from, names[..|names| - 1], k);
    } else {
      assert names[..k] == names;
    }
  }

  /** How far a walk has come, against the tree it started on: still inside it, or in directories it made itself. */
  ghost predicate Tracked(first: Tree, now: Tree, root: Node, names: seq<string>, here: Node, create: bool) {
    var was := Resolve(first.kinds, first.entries, root, names);
    && Resolve(now.kinds, now.entries, root, names) == At(here)
    && !was.Blocked?
    && (was.At? ==> now == first)
    && (was.Gone? ==> create && here in now.entries && now.entries[here] == map[])
  }

  lemma AtTheRoot(first: Tree, root: Node, hops: seq<Hop>, create: bool)
    ensures Tracked(first, first, root, [], root, create)
    ensures Leads(hops[|hops|..], [], root, root)
  {
  }

  lemma TrackedOn(
    first: Tree, now: Tree, next: Tree, root: Node, names: seq<string>, name: string, here: Node, child: Node,
    create: bool)
    requires Tracked(first, now, root, names, here, create)
    requires forall n :: n in now.kinds ==> n in next.kinds && next.kinds[n] == now.kinds[n]
    requires forall d, n :: d in now.entries && n in now.entries[d] ==>
      d in next.entries && n in next.entries[d] && next.entries[d][n] == now.entries[d][n]
    requires Step(next.kinds, next.entries, here, name) == At(child)
    requires
      var step := Step(now.kinds, now.entries, here, name);
      if step.Gone? then create && child in next.entries && next.entries[child] == map[] else step.At? && next == now
    ensures Tracked(first, next, root, names + [name], child, create)
  {
    ResolveGrows(now.kinds, now.entries, next.kinds, next.entries, root, names);
    assert (names + [name])[..|names|] == names;
  }

  /** When no call fails, a walk fails only for a path that leads to no directory, and says why. */
  ghost predicate FailsRightly(first: Tree, root: Node, names: seq<string>, create: bool, error: Refusal) {
    var was := Resolve(first.kinds, first.entries, root, names);
    if create then error == Unsafe && (was.Blocked? || exists c :: c in names && !Plain(c))
    else !was.At? && error == if was.Gone? then Missing else Unsafe
  }

  lemma FailedRightly(
    first: Tree, now: Tree, root: Node, names: seq<string>, i: nat, here: Node, create: bool, error: Refusal)
    requires i < |names| && Tracked(first, now, root, names[..i], here, create)
    requires
      var step := Step(now.kinds, now.entries, here, names[i]);
      && !step.At? && (create ==> step.Blocked?) && error == if step.Gone? then Missing else Unsafe
    ensures FailsRightly(first, root, names, create, error)
  {
    assert names[..i + 1][..i] == names[..i];
    if Resolve(first.kinds, first.entries, root, names[..i]).At? {
      PrefixDecides(first.kinds, first.entries, root, names, i + 1);
    } else {
      assert names[i] in names;
    }
  }

  /** One component, with the walk's standing and its track kept. */
  method Advance(
    fs: FileSystem, descriptor: Fd, components: seq<string>, i: nat, create: bool,
    ghost before: map<Fd, Node>, ghost start: seq<Hop>, ghost first: Tree)
    returns (r: Result<Fd, Refusal>)
    requires i < |components| && fs.Valid() && Standing(fs, before, start, descriptor, components[..i])
    requires fs.quiet ==> Tracked(first, fs.Now(), fs.root, components[..i], fs.descriptors[descriptor], create)
    modifies fs`kinds, fs`entries, fs`descriptors, fs`hops, fs`made
    ensures fs.Valid() && fs.Grown() && OnlyAdds(old(fs.made), fs.made) && (!create ==> fs.made == old(fs.made))
    ensures r.Success? ==> Standing(fs, before, start, r.value, components[..i + 1]) && Plain(components[i])
    ensures r.Failure? ==> fs.descriptors == before && (create ==> !r.error.Missing?)
    ensures fs.quiet && r.Success? ==>
      Tracked(first, fs.Now(), fs.root, components[..i + 1], fs.descriptors[r.value], create)
    ensures fs.quiet && fs.reliable && r.Failure? ==> FailsRightly(first, fs.root, components, create, r.error)
    ensures fs.quiet && !create ==> fs.SameTree()
  {
    hide Leads, Real, AddsFreeName, Tracked, FailsRightly, FileSystem.Valid, Plain, Resolve, OnlyAdds;
    assert components[..i + 1] == components[..i] + [components[i]];
    ghost var here, now := fs.descriptors[descriptor], fs.Now();
    r := Enter(fs, descriptor, components[i], create, before, start, components[..i]);
    if fs.quiet {
      if r.Success? {
        TrackedOn(
          first, now, fs.Now(), fs.root, components[..i], components[i], here, fs.descriptors[r.value], create);
      } else if fs.reliable {
        FailedRightly(first, now, fs.root, components, i, here, create, r.error);
      }
    }
  }

  /** The common body of both walks. */
  method Walk(fs: FileSystem, components: seq<string>, create: bool) returns (r: Result<Fd, Refusal>)
    requires fs.Valid()
    modifies fs
    ensures fs.Valid() && fs.Grown() && OnlyAdds(old(fs.made), fs.made) && (!create ==> fs.made == old(fs.made))
    ensures r.Success? ==> Standing(fs, old(fs.descriptors), old(fs.hops), r.value, components)
    ensures r.Success? ==> forall c :: c in components ==> Plain(c)
    ensures r.Failure? ==> fs.descriptors == old(fs.descriptors)
    ensures create ==> r != Failure(Missing)
    ensures fs.quiet && r.Success? ==>
      && Resolve(fs.kinds, fs.entries, fs.root, components) == At(fs.descriptors[r.value])
      && !Resolve(old(fs.kinds), old(fs.entries), fs.root, components).Blocked?
    ensures fs.quiet && fs.reliable && r.Failure? ==>
      FailsRightly(old(fs.Now()), fs.root, components, create, r.error)
    ensures fs.quiet && !create ==> fs.SameTree()
  {
    hide Leads, Real, AddsFreeName, Tracked, FailsRightly, FileSystem.Valid, Plain, Resolve;
    var opening := fs.OpenRoot();
    if !opening.Opened? {
      return Failure(OsError);
    }
    var descriptor := opening.fd;
    ghost var first := fs.Now();
    AtTheRoot(first, fs.root, fs.hops, create);
    var i := 0;
    while i < |components|
      invariant 0 <= i <= |components|
      invariant fs.Valid() && fs.Grown() && OnlyAdds(old(fs.made), fs.made) && (!create ==> fs.made == old(fs.made))
      invariant Standing(fs, old(fs.descriptors), old(fs.hops), descriptor, components[..i])
      invariant forall c :: c in components[..i] ==> Plain(c)
      invariant fs.quiet ==> Tracked(first, fs.Now(), fs.root, components[..i], fs.descriptors[descriptor], create)
      invariant fs.quiet && !create ==> fs.SameTree()
    {
      assert components[..i + 1] == components[..i] + [components[i]];
      var next := Advance(fs, descriptor, components, i, create, old(fs.descriptors), old(fs.hops), first);
      if next.Failure? {
        return next;
      }
      descriptor := next.value;
      i := i + 1;
    }
    assert components[..i] == components;
    if fs.quiet {
      TrackEnds(first, fs.Now(), fs.root, components, fs.descriptors[descriptor], create);
    }
    return Success(descriptor);
  }

  lemma TrackEnds(first: Tree, now: Tree, root: Node, names: seq<string>, here: Node, create: bool)
    requires Tracked(first, now, root, names, here, create)
    ensures Resolve(now.kinds, now.entries, root, names) == At(here)
    ensures !Resolve(first.kinds, first.entries, root, names).Blocked?
  {
  }

  /**
   `_open_absolute_directory_nofollow`: the only descriptor left open is the one returned, and it was reached from
   the root by opening each component as a directory.  On a tree that stands still that is where the path leads, and
   when no call fails the walk succeeds exactly for a path that leads to a directory.
   */
  method OpenAbsoluteDirectoryNofollow(fs: FileSystem, path: Path) returns (r: Result<Fd, Refusal>)
    requires fs.Valid()
    modifies fs
    ensures fs.Valid() && fs.Grown() && fs.made == old(fs.made)
    ensures r.Success? ==> path.anchor != Relative && forall c :: c in path.components ==> Plain(c)
    ensures path.anchor == Relative || ".." in path.components ==> r == Failure(Unsafe)
    ensures r.Success? ==> Standing(fs, old(fs.descriptors), old(fs.hops), r.value, path.components)
    ensures r.Failure? ==> fs.descriptors == old(fs.descriptors)
    ensures fs.quiet ==> fs.SameTree()
    ensures fs.quiet ==>
      var end := old(Resolve(fs.kinds, fs.entries, fs.root, path.components));
      && (r.Success? ==> end == At(fs.descriptors[r.value]))
      && (fs.reliable ==>
            && (r.Success? <==> path.anchor != Relative && end.At?)
            && (r == Failure(Missing) <==> path.anchor != Relative && ".." !in path.components && end.Gone?))
  {
    if path.anchor == Relative || ".." in path.components {
      if Resolve(fs.kinds, fs.entries, fs.root, path.components).At? {
        ResolvedIsPlain(fs.kinds, fs.entries, fs.root, path.components);
      }
      return Failure(Unsafe);
    }
    r := Walk(fs, path.components, false);
  }

  /**
   `_open_or_create_absolute_directory_nofollow`; a lexically normal path is one without "..".  When no call fails and
   the tree stands still it succeeds exactly for an absolute path, other than "/", of plain names that nothing blocks.
   */
  method OpenOrCreateAbsoluteDirectoryNofollow(fs: FileSystem, path: Path) returns (r: Result<Fd, Refusal>)
    requires fs.Valid()
    modifies fs
    ensures fs.Valid() && fs.Grown() && OnlyAdds(old(fs.made), fs.made)
    ensures r.Success? ==>
      path.anchor != Relative && path != Path(Root, []) && forall c :: c in path.components ==> Plain(c)
    ensures r.Success? ==> Standing(fs, old(fs.descriptors), old(fs.hops), r.value, path.components)
    ensures r.Failure? ==> fs.descriptors == old(fs.descriptors) && !r.error.Missing?
    ensures path.anchor == Relative || path == Path(Root, []) || ".." in path.components ==> r == Failure(Unsafe)
    ensures fs.quiet ==>
      var before := old(Resolve(fs.kinds, fs.entries, fs.root, path.components));
      var plain := forall c :: c in path.components ==> Plain(c);
      && (r.Success? ==> Resolve(fs.kinds, fs.entries, fs.root, path.components) == At(fs.descriptors[r.value]))
      && (fs.reliable ==>
            (r.Success? <==> path.anchor != Relative && path != Path(Root, []) && plain && !before.Blocked?))
  {
    if path.anchor == Relative || path == Path(Root, []) || ".." in path.components {
      return Failure(Unsafe);
    }
    r := Walk(fs, path.components, true);
  }
}
