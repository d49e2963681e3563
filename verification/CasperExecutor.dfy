/**
 A run of the persistence media builder in isopropyl/casper_media.py, as the trace of the checks it passed, the
 commands it started and the stages it reported.  Every check, command and callback may raise.
 */
module CasperExecutor {
  import opened Wrappers

  /**
   The exception classes the `except` clauses of `execute` and `_power_off` tell apart.  System is OSError and
   SubprocessError, Value is ValueError, and InvalidFormat both a formatting error and a ValueError.
   */
  datatype Exc =
    | FormatCancelled | ConstructedCancelled | CasperCancelled | CasperSafety | ConstructedSafety
    | Formatting | InvalidFormat | Constructed | Casper | System | Value | Other

  datatype Step = Done | Raise(e: Exc) {
    predicate IsFailure() {
      Raise?
    }

    function PropagateFailure(): Step
      requires Raise?
    {
      this
    }
  }

  /**
   What a passed check has established.  Boundary, Formatted and Ready are the three forms of `_verify_target`, Final
   is the last one of the run before the media counts as complete, Drive is the device check.  Plan, Content and
   Discovered are the checks of plans and tools, of the staged content, and of what the new table contains.
   */
  datatype Fact =
    | Identity | Sector | Geometry | Nodes | Boundary | Formatted | Ready | Final | Drive
    | Plan | Content | NotCancelled | OldUnmounted | Discovered | TwoCommands | TwoPartitions | CleanlyUnmounted

  datatype Command =
    | Unmount | Partition | Partprobe | Settle | Mkfs(i: nat) | UnmountCreated(i: nat) | Populate | PowerOff

  datatype Stage = CreatingTable | Complete | OtherStage

  datatype Event = Checked(fact: Fact) | Started(command: Command) | Reported(stage: Stage)

  type Trace = seq<Event>

  /**
   The facts established since the last command was started.  The boundary check runs the caller's own code, so what
   was checked before it counts as stale, too.
   */
  function Fresh(t: Trace): set<Fact> {
    if t == [] then {}
    else
      var before, last := t[..|t| - 1], t[|t| - 1];
      if last.Checked? then After(Fresh(before), last.fact) else if last.Started? then {} else Fresh(before)
  }

  function After(known: set<Fact>, fact: Fact): set<Fact> {
    if fact.Boundary? then {Boundary} else known + {fact}
  }

  const TARGET: set<Fact> := {Identity, Sector, Geometry, Nodes}

  /** The commands started, without the unmounting of what was there before. */
  function Commands(t: Trace): seq<Command> {
    if t == [] then []
    else
      var before := Commands(t[..|t| - 1]);
      match t[|t| - 1]
      case Started(Unmount) => before
      case Started(command) => before + [command]
      case _ => before
  }

  /** The commands of a whole run, in order. */
  const SCRIPT: seq<Command> := [
    Partition, Partprobe, Settle, Mkfs(0), Mkfs(1), Settle, UnmountCreated(0), UnmountCreated(1), Populate, PowerOff]

  // ----- all events of a run, in order

  const FOUR: Trace := [Checked(Identity), Checked(Sector), Checked(Geometry), Checked(Nodes)]

  function Unmounts(mounts: nat): Trace {
    if mounts == 0 then [] else [Checked(NotCancelled), Started(Unmount)] + Unmounts(mounts - 1)
  }

  const BEFORE_UNMOUNTING: Trace := [
    Checked(Plan), Checked(Identity), Checked(Sector), Reported(OtherStage), Checked(NotCancelled)]

  const AFTER_UNMOUNTING: Trace := [
    Checked(Identity), Checked(OldUnmounted), Checked(Sector), Checked(NotCancelled), Checked(Identity),
    Checked(Sector), Reported(CreatingTable)]

  const TABLE: Trace := [
    Started(Partition), Started(Partprobe), Started(Settle), Reported(OtherStage), Checked(NotCancelled),
    Checked(Discovered), Checked(Identity), Checked(Geometry), Checked(Sector), Checked(Nodes)]

  function Filesystem(i: nat): (t: Trace)
    ensures |t| == 12
  {
    [Checked(NotCancelled)] + FOUR + [Checked(Boundary), Checked(NotCancelled)] + FOUR + [Started(Mkfs(i))]
  }

  function Creation(mounts: nat): Trace {
    BEFORE_UNMOUNTING + (Unmounts(mounts) + (AFTER_UNMOUNTING + TABLE))
  }

  /** The events of `execute_multi`. */
  function Layout(mounts: nat): Trace {
    Creation(mounts) + FILESYSTEMS
  }

  const SETTLED: Trace := [Started(Settle)] + FOUR + [Reported(OtherStage)]

  const FILESYSTEMS: Trace :=
    [Checked(TwoCommands), Reported(OtherStage)] + (Filesystem(0) + (Filesystem(1) + SETTLED))

  const UNMOUNT_BOTH: Trace := [
    Checked(Formatted), Checked(NotCancelled), Started(UnmountCreated(0)),
    Checked(Formatted), Checked(NotCancelled), Started(UnmountCreated(1)), Checked(Ready)]

  const POPULATE: Trace := [
    Reported(OtherStage), Checked(NotCancelled), Checked(Ready), Started(Populate), Checked(CleanlyUnmounted),
    Checked(NotCancelled), Checked(Final), Reported(Complete)]

  /** The events of the `try` block in `execute`. */
  function Body(mounts: nat): Trace {
    [Checked(Content), Reported(OtherStage), Checked(NotCancelled), Checked(Drive)]
    + (Layout(mounts) + ([Checked(TwoPartitions), Checked(Formatted)] + (UNMOUNT_BOTH + POPULATE)))
  }

  const OPENING: Trace := [Checked(Plan), Checked(NotCancelled), Checked(Drive)]
  const POWER_OFF: Trace := [Checked(Ready), Checked(Drive), Started(PowerOff)]

  /** An undisturbed run on a drive with `mounts` old partitions to unmount. */
  function Whole(mounts: nat): Trace {
    OPENING + (Body(mounts) + POWER_OFF)
  }

  /** What must be fresh when a command starts. */
  function Needed(c: Command): set<Fact> {
    match c
    case Partition => {Identity, Sector}
    case Mkfs(_) => TARGET + {Boundary}
    case UnmountCreated(_) => {Formatted}
    case Populate => {Ready}
    case PowerOff => {Final, Ready, Drive}
    case _ => {}
  }

  predicate Destroys(c: Command) {
    c.Partition? || c.Mkfs?
  }

  /** One event is allowed after a trace. */
  predicate Allowed(t: Trace, e: Event) {
    match e
    case Started(c) => Needed(c) <= Fresh(t) && (Destroys(c) ==> Reported(CreatingTable) in t)
    case Checked(fact) => fact.Boundary? ==> TARGET <= Fresh(t)
    case Reported(_) => true
  }

  predicate Guarded(t: Trace) {
    forall k :: 0 <= k < |t| ==> Allowed(t[..k], t[k])
  }

  lemma Extend(t: Trace, e: Event)
    ensures (t + [e])[..|t|] == t
    ensures Guarded(t) && Allowed(t, e) ==> Guarded(t + [e])
    ensures Fresh(t + [e]) ==
            if e.Checked? then After(Fresh(t), e.fact) else if e.Started? then {} else Fresh(t)
    ensures Commands(t + [e]) == if e.Started? && !e.command.Unmount? then Commands(t) + [e.command] else Commands(t)
  {
    assert (t + [e])[..|t|] == t;
    if Guarded(t) && Allowed(t, e) {
      forall k | 0 <= k < |t + [e]| ensures Allowed((t + [e])[..k], (t + [e])[k]) {
        if k < |t| {
          assert (t + [e])[..k] == t[..k];
        }
      }
    }
  }

  // ----- the run

  class Runner {
    ghost var trace: Trace
    /** The events still to come if nothing raises. */
    ghost var todo: Trace
    const mounts: nat
    /** Nothing raises but the obstacle. */
    const calm: bool
    /** What a calm run meets at the start of its power-off attempt. */
    const obstacle: Option<Exc>
    var used: bool
    var attempted: bool
    var safeToPowerOff: bool

    /** How many commands of the script have been started. */
    ghost function Count(): nat
      reads this`trace
    {
      |Commands(trace)|
    }

    /**
     The trace is a beginning of the whole run and guarded, its commands begin the script, and `attempted` tells
     whether they were announced.
     */
    ghost predicate Valid()
      reads this`trace, this`todo, this`attempted
    {
      && trace + todo == Whole(mounts)
      && Guarded(trace) && Commands(trace) <= SCRIPT
      && (attempted <==> Reported(CreatingTable) in trace)
    }

    constructor (calm: bool, obstacle: Option<Exc>, mounts: nat)
      ensures this.calm == calm && this.obstacle == obstacle && this.mounts == mounts
      ensures Valid() && trace == [] && !used && !attempted && !safeToPowerOff
    {
      this.calm := calm;
      this.obstacle := obstacle;
      this.mounts := mounts;
      trace, todo := [], Whole(mounts);
      used := false;
      attempted := false;
      safeToPowerOff := false;
    }

    /** Whether the next call raises. */
    method Try() returns (r: Step)
      ensures calm ==> r.Done?
    {
      var e: Exc, raises: bool := *, *;
      return if raises && !calm then Raise(e) else Done;
    }

    /** The next event of the whole run happens. */
    ghost method Happens(e: Event)
      requires Valid() && [e] <= todo && Allowed(trace, e) && e != Reported(CreatingTable)
      requires e.Started? && !e.command.Unmount? ==> Count() < |SCRIPT| && e.command == SCRIPT[Count()]
      modifies this`trace, this`todo
      ensures Valid() && trace == old(trace) + [e] && todo == old(todo)[1..]
    {
      hide Fresh, Whole, Commands, Guarded;
      Extend(trace, e);
      if e.Started? && !e.command.Unmount? {
        NextOfTheScript(Commands(trace), e.command);
      }
      trace, todo := trace + [e], todo[1..];
    }

    method Check(fact: Fact) returns (r: Step)
      requires Valid() && [Checked(fact)] <= todo && (fact.Boundary? ==> TARGET <= Fresh(trace))
      modifies this`trace, this`todo
      ensures Valid() && Count() == old(Count())
      ensures Fresh(trace) == if r.Done? then After(old(Fresh(trace)), fact) else old(Fresh(trace))
      ensures todo == if r.Done? then old(todo)[1..] else old(todo)
      ensures calm ==> r.Done?
      ensures trace == old(trace) + if r.Done? then [Checked(fact)] else []
    {
      hide Fresh, Whole, Commands, Guarded;
      Extend(trace, Checked(fact));
      r := Try();
      if r.Done? {
        Happens(Checked(fact));
      }
    }

    /** A stage is reported, and the callback may raise. */
    method Report(stage: Stage) returns (r: Step)
      requires Valid() && [Reported(stage)] <= todo
      modifies this`trace, this`todo, this`attempted
      ensures Valid() && Count() == old(Count()) && Fresh(trace) == old(Fresh(trace))
      ensures attempted == (old(attempted) || stage.CreatingTable?)
      ensures todo == old(todo)[1..]
      ensures calm ==> r.Done?
      ensures old(trace) <= trace && Reported(stage) in trace
    {
      hide Fresh, Whole, Commands, Guarded;
      Extend(trace, Reported(stage));
      if stage.CreatingTable? {
        attempted := true;
      }
      trace, todo := trace + [Reported(stage)], todo[1..];
      r := Try();
    }

    /** Unmounting what was there before; not a command of the script. */
    method Unmount() returns (r: Step)
      requires Valid() && [Started(Command.Unmount)] <= todo
      modifies this`trace, this`todo
      ensures Valid() && Count() == old(Count())
      ensures r.Done? ==> todo == old(todo)[1..]
      ensures calm ==> r.Done?
    {
      hide Fresh, Whole, Commands, Guarded;
      Extend(trace, Started(Command.Unmount));
      r := Try();
      if r.Done? {
        Happens(Started(Command.Unmount));
        r := Try();
      }
    }

    /** The next command of the script: it may fail before it starts, or at any time after. */
    method Run(command: Command) returns (r: Step)
      requires Valid() && Count() < |SCRIPT| && command == SCRIPT[Count()] && [Started(command)] <= todo
      requires Needed(command) <= Fresh(trace) && attempted
      modifies this`trace, this`todo
      ensures Valid() && old(trace) <= trace
      ensures r.Done? ==> Count() == old(Count()) + 1 && todo == old(todo)[1..]
      ensures calm ==> r.Done?
      ensures if Count() == old(Count()) then Fresh(trace) == old(Fresh(trace))
              else Count() == old(Count()) + 1 && Fresh(trace) == {}
    {
      hide Fresh, Whole, Commands, Guarded;
      Extend(trace, Started(command));
      r := Try();
      if r.Done? {
        Happens(Started(command));
        r := Try();
      }
    }
  }

  lemma NextOfTheScript(before: seq<Command>, command: Command)
    requires before <= SCRIPT && |before| < |SCRIPT| && command == SCRIPT[|before|]
    ensures before + [command] <= SCRIPT && !command.Unmount?
  {
    assert forall i :: 0 <= i < |SCRIPT| ==> !SCRIPT[i].Unmount?;
  }

  // ----- CasperLayoutExecutor.execute_multi

  /** The four checks made twice before each filesystem is created. */
  method Revalidate(run: Runner) returns (r: Step)
    requires run.Valid() && FOUR <= run.todo
    modifies run`trace, run`todo
    ensures run.Valid() && run.Count() == old(run.Count()) && old(Fresh(run.trace)) <= Fresh(run.trace)
    ensures r.Done? ==> TARGET <= Fresh(run.trace) && run.todo == old(run.todo)[4..]
    ensures run.calm ==> r.Done?
  {
    hide Fresh, Whole, Runner.Valid, Runner.Count;
    r := Done;
    :- run.Check(Identity);
    :- run.Check(Sector);
    :- run.Check(Geometry);
    :- run.Check(Nodes);
  }

  /** `_unmount`: one command for each partition that was there before. */
  method UnmountOld(run: Runner, mounts: nat) returns (r: Step)
    requires run.Valid() && Unmounts(mounts) <= run.todo
    modifies run`trace, run`todo
    ensures run.Valid() && run.Count() == old(run.Count())
    ensures r.Done? ==> run.todo == old(run.todo)[|Unmounts(mounts)|..]
    ensures run.calm ==> r.Done?
  {
    hide Fresh, Whole, Runner.Valid, Runner.Count;
    var i := 0;
    while i < mounts
      invariant 0 <= i <= mounts && run.Valid() && run.Count() == old(run.Count())
      invariant Unmounts(mounts - i) <= run.todo
      invariant run.todo[|Unmounts(mounts - i)|..] == old(run.todo)[|Unmounts(mounts)|..]
    {
      r := run.Check(NotCancelled);
      :- r;
      r := run.Unmount();
      :- r;
      i := i + 1;
    }
    return Done;
  }

  /** The checks before the partition table is replaced, up to the report that announces it. */
  method PrepareTarget(run: Runner, mounts: nat) returns (r: Step)
    requires run.Valid() && BEFORE_UNMOUNTING + (Unmounts(mounts) + AFTER_UNMOUNTING) <= run.todo
    modifies run`trace, run`todo, run`attempted
    ensures run.Valid() && run.Count() == old(run.Count())
    ensures r.Done? ==> run.attempted && {Identity, Sector} <= Fresh(run.trace)
    ensures r.Done? ==>
      run.todo == old(run.todo)[|BEFORE_UNMOUNTING + (Unmounts(mounts) + AFTER_UNMOUNTING)|..]
    ensures run.calm ==> r.Done?
  {
    hide Fresh, Whole, Runner.Valid, Runner.Count, Unmounts;
    r := ApproachTarget(run);
    :- r;
    :- UnmountOld(run, mounts);
    r := AnnounceTable(run);
  }

  method ApproachTarget(run: Runner) returns (r: Step)
    requires run.Valid() && BEFORE_UNMOUNTING <= run.todo
    modifies run`trace, run`todo, run`attempted
    ensures run.Valid() && run.Count() == old(run.Count())
    ensures r.Done? ==> run.todo == old(run.todo)[5..]
    ensures run.calm ==> r.Done?
  {
    hide Fresh, Whole, Runner.Valid, Runner.Count;
    r := run.Check(Plan);
    :- r;
    :- run.Check(Identity);
    :- run.Check(Sector);
    :- run.Report(OtherStage);
    r := run.Check(NotCancelled);
  }

  method AnnounceTable(run: Runner) returns (r: Step)
    requires run.Valid() && AFTER_UNMOUNTING <= run.todo
    modifies run`trace, run`todo, run`attempted
    ensures run.Valid() && run.Count() == old(run.Count())
    ensures r.Done? ==> run.attempted && {Identity, Sector} <= Fresh(run.trace) && run.todo == old(run.todo)[7..]
    ensures run.calm ==> r.Done?
  {
    hide Fresh, Whole, Runner.Valid, Runner.Count;
    r := run.Check(Identity);
    :- r;
    :- run.Check(OldUnmounted);
    :- run.Check(Sector);
    :- run.Check(NotCancelled);
    :- run.Check(Identity);
    :- run.Check(Sector);
    :- run.Report(CreatingTable);
  }

  method MakeFilesystem(run: Runner, i: nat) returns (r: Step)
    requires i < 2 && run.Valid() && run.Count() == 3 + i && run.attempted && Filesystem(i) <= run.todo
    modifies run`trace, run`todo
    ensures run.Valid() && 3 + i <= run.Count() <= 4 + i
    ensures r.Done? ==> run.Count() == 4 + i && run.todo == old(run.todo)[12..]
    ensures run.calm ==> r.Done?
  {
    hide Fresh, Whole, Runner.Valid, Runner.Count;
    r := run.Check(NotCancelled);
    :- r;
    :- Revalidate(run);
    :- run.Check(Boundary);
    :- run.Check(NotCancelled);
    :- Revalidate(run);
    r := run.Run(Mkfs(i));
  }

  /** The new partition table, and the checks that bind the partitions it made. */
  method ReplaceTable(run: Runner) returns (r: Step)
    requires run.Valid() && run.Count() == 0 && run.attempted && {Identity, Sector} <= Fresh(run.trace)
    requires TABLE <= run.todo
    modifies run`trace, run`todo, run`attempted
    ensures run.Valid() && run.Count() <= 3
    ensures r.Done? ==> run.Count() == 3 && run.attempted && run.todo == old(run.todo)[10..]
    ensures run.calm ==> r.Done?
  {
    hide Fresh, Whole, Runner.Valid, Runner.Count;
    r := run.Run(Partition);
    :- r;
    :- run.Run(Partprobe);
    :- run.Run(Settle);
    r := InspectTable(run);
  }

  method InspectTable(run: Runner) returns (r: Step)
    requires run.Valid() && run.attempted && TABLE[3..] <= run.todo
    modifies run`trace, run`todo, run`attempted
    ensures run.Valid() && run.Count() == old(run.Count()) && run.attempted
    ensures r.Done? ==> run.todo == old(run.todo)[7..]
    ensures run.calm ==> r.Done?
  {
    hide Fresh, Whole, Runner.Valid, Runner.Count;
    r := run.Report(OtherStage);
    :- r;
    :- run.Check(NotCancelled);
    :- run.Check(Discovered);
    :- run.Check(Identity);
    :- run.Check(Geometry);
    :- run.Check(Sector);
    :- run.Check(Nodes);
  }

  method CreatePartitions(run: Runner, mounts: nat) returns (r: Step)
    requires run.Valid() && run.Count() == 0 && Creation(mounts) <= run.todo
    modifies run`trace, run`todo, run`attempted
    ensures run.Valid() && run.Count() <= 3
    ensures r.Done? ==> run.Count() == 3 && run.attempted && run.todo == old(run.todo)[|Creation(mounts)|..]
    ensures run.calm ==> r.Done?
  {
    hide Fresh, Whole, Runner.Valid, Runner.Count, Unmounts;
    var before := BEFORE_UNMOUNTING + (Unmounts(mounts) + AFTER_UNMOUNTING);
    assert Creation(mounts) == before + TABLE;
    r := PrepareTarget(run, mounts);
    :- r;
    r := ReplaceTable(run);
  }

  method ExecuteMulti(run: Runner, mounts: nat) returns (r: Step)
    requires run.Valid() && run.Count() == 0 && Layout(mounts) <= run.todo
    modifies run`trace, run`todo, run`attempted
    ensures run.Valid() && run.Count() <= 6
    ensures r.Done? ==> run.Count() == 6 && run.attempted && TARGET <= Fresh(run.trace)
    ensures r.Done? ==> run.todo == old(run.todo)[|Layout(mounts)|..]
    ensures run.calm ==> r.Done?
  {
    hide Fresh, Whole, Runner.Valid, Runner.Count, Creation;
    r := CreatePartitions(run, mounts);
    :- r;
    r := CreateFilesystems(run);
  }

  method CreateFilesystems(run: Runner) returns (r: Step)
    requires run.Valid() && run.Count() == 3 && run.attempted && FILESYSTEMS <= run.todo
    modifies run`trace, run`todo, run`attempted
    ensures run.Valid() && run.Count() <= 6
    ensures r.Done? ==> run.Count() == 6 && run.attempted && TARGET <= Fresh(run.trace)
    ensures r.Done? ==> run.todo == old(run.todo)[|FILESYSTEMS|..]
    ensures run.calm ==> r.Done?
  {
    hide Fresh, Whole, Runner.Valid, Runner.Count, Filesystem;
    r := run.Check(TwoCommands);
    :- r;
    :- run.Report(OtherStage);
    assert Filesystem(0) + (Filesystem(1) + SETTLED) <= run.todo;
    :- MakeFilesystem(run, 0);
    :- MakeFilesystem(run, 1);
    r := SettleFilesystems(run);
  }

  method SettleFilesystems(run: Runner) returns (r: Step)
    requires run.Valid() && run.Count() == 5 && run.attempted && SETTLED <= run.todo
    modifies run`trace, run`todo, run`attempted
    ensures run.Valid() && run.Count() <= 6
    ensures r.Done? ==> run.Count() == 6 && run.attempted && TARGET <= Fresh(run.trace)
    ensures r.Done? ==> run.todo == old(run.todo)[6..]
    ensures run.calm ==> r.Done?
  {
    hide Fresh, Whole, Runner.Valid, Runner.Count;
    r := run.Run(Settle);
    :- r;
    :- Revalidate(run);
    :- run.Report(OtherStage);
  }

  // ----- CasperMediaExecutor

  /** `_unmount_created` */
  method UnmountBoth(run: Runner) returns (r: Step)
    requires run.Valid() && run.Count() == 6 && run.attempted && UNMOUNT_BOTH <= run.todo
    modifies run`trace, run`todo
    ensures run.Valid() && run.Count() <= 8
    ensures r.Done? ==> run.Count() == 8 && Ready in Fresh(run.trace) && run.todo == old(run.todo)[7..]
    ensures run.calm ==> r.Done?
  {
    hide Fresh, Whole, Runner.Valid, Runner.Count;
    r := run.Check(Formatted);
    :- r;
    :- run.Check(NotCancelled);
    :- run.Run(UnmountCreated(0));
    :- run.Check(Formatted);
    :- run.Check(NotCancelled);
    :- run.Run(UnmountCreated(1));
    :- run.Check(Ready);
  }

  method StartPopulating(run: Runner) returns (r: Step)
    requires run.Valid() && run.Count() == 8 && run.attempted && POPULATE[..4] <= run.todo
    modifies run`trace, run`todo, run`attempted
    ensures run.Valid() && run.Count() <= 9
    ensures r.Done? ==> run.Count() == 9 && run.attempted && run.todo == old(run.todo)[4..]
    ensures run.calm ==> r.Done?
  {
    hide Fresh, Whole, Runner.Valid, Runner.Count;
    r := run.Report(OtherStage);
    :- r;
    :- run.Check(NotCancelled);
    :- run.Check(Ready);
    :- run.Run(Populate);
  }

  /** Population and what follows it. */
  method PopulateBoth(run: Runner) returns (r: Step)
    requires run.Valid() && run.Count() == 8 && run.attempted && POPULATE <= run.todo && !run.safeToPowerOff
    modifies run`trace, run`todo, run`attempted, run`safeToPowerOff
    ensures run.Valid() && run.Count() <= 9
    ensures run.safeToPowerOff ==>
      && run.Count() == 9 && run.attempted && Final in Fresh(run.trace) && Reported(Complete) in run.trace
      && run.todo == old(run.todo)[8..]
    ensures r.Done? ==> run.safeToPowerOff
    ensures run.calm ==> r.Done?
  {
    hide Fresh, Whole, Runner.Valid, Runner.Count;
    r := StartPopulating(run);
    :- r;
    assert run.todo[..4] == POPULATE[4..];
    :- run.Check(CleanlyUnmounted);
    :- run.Check(NotCancelled);
    :- run.Check(Final);
    run.safeToPowerOff := true;
    r := run.Report(Complete);
  }

  /** The body of the `try` block in `execute`. */
  method Build(run: Runner) returns (r: Step)
    requires run.Valid() && run.Count() == 0 && !run.safeToPowerOff && Body(run.mounts) <= run.todo
    modifies run`trace, run`todo, run`attempted, run`safeToPowerOff
    ensures run.Valid() && run.Count() <= 9
    ensures run.safeToPowerOff ==>
      && run.Count() == 9 && run.attempted && Final in Fresh(run.trace) && Reported(Complete) in run.trace
      && run.todo == old(run.todo)[|Body(run.mounts)|..]
    ensures r.Done? ==> run.safeToPowerOff
    ensures run.calm ==> r.Done?
  {
    hide Fresh, Whole, Runner.Valid, Runner.Count, Layout;
    ghost var layout := Layout(run.mounts);
    ghost var after := [Checked(TwoPartitions), Checked(Formatted)] + (UNMOUNT_BOTH + POPULATE);
    r := run.Check(Content);
    :- r;
    :- run.Report(OtherStage);
    :- run.Check(NotCancelled);
    :- run.Check(Drive);
    assert layout + after <= run.todo;
    :- ExecuteMulti(run, run.mounts);
    r := FinishMedia(run);
  }

  method FinishMedia(run: Runner) returns (r: Step)
    requires run.Valid() && run.Count() == 6 && run.attempted && !run.safeToPowerOff
    requires [Checked(TwoPartitions), Checked(Formatted)] + (UNMOUNT_BOTH + POPULATE) <= run.todo
    modifies run`trace, run`todo, run`attempted, run`safeToPowerOff
    ensures run.Valid() && run.Count() <= 9
    ensures run.safeToPowerOff ==>
      && run.Count() == 9 && run.attempted && Final in Fresh(run.trace) && Reported(Complete) in run.trace
      && run.todo == old(run.todo)[17..]
    ensures r.Done? ==> run.safeToPowerOff
    ensures run.calm ==> r.Done?
  {
    hide Fresh, Whole, Runner.Valid, Runner.Count;
    r := run.Check(TwoPartitions);
    :- r;
    :- run.Check(Formatted);
    assert UNMOUNT_BOTH + POPULATE <= run.todo;
    :- UnmountBoth(run);
    r := PopulateBoth(run);
  }

  /** What `_power_off` comes to: an answer, or an exception none of its clauses catches. */
  datatype Attempt = Answer(poweredOff: bool) | Escape(e: Exc)

  /** The first `except` clause of `_power_off`, around the checks. */
  predicate CaughtChecking(e: Exc) {
    e.System? || e.Value? || e.InvalidFormat? || e.CasperCancelled? || e.CasperSafety? || e.Casper?
  }

  /** `_power_off`: some of what it meets is raised. */
  method TryPowerOff(run: Runner) returns (r: Attempt)
    requires run.Valid() && run.Count() == 9 && run.attempted && Final in Fresh(run.trace) && run.todo == POWER_OFF
    modifies run`trace, run`todo
    ensures run.Valid() && old(run.trace) <= run.trace
    ensures run.calm ==> run.todo == if run.obstacle.None? then [] else POWER_OFF
    ensures run.Count() == 10 || (run.Count() == 9 && r != Answer(true) && Final in Fresh(run.trace))
    ensures r.Escape? ==> !r.e.System?
    ensures run.calm ==> r == CalmAttempt(run.obstacle) && (run.Count() == 10 <==> run.obstacle.None?)
  {
    hide Fresh, Commands, Guarded;
    var checked := CheckAgain(run);
    if checked.Raise? {
      return if CaughtChecking(checked.e) then Answer(false) else Escape(checked.e);
    }
    var started := run.Run(PowerOff);
    if started.Raise? {
      // the second clause is narrower
      return if started.e.System? then Answer(false) else Escape(started.e);
    }
    var failed: bool := *;
    return Answer(run.calm || !failed);
  }

  /** The checks that open the power-off attempt. */
  method CheckAgain(run: Runner) returns (r: Step)
    requires run.Valid() && run.Count() == 9 && Final in Fresh(run.trace) && run.todo == POWER_OFF
    modifies run`trace, run`todo
    ensures run.Valid() && run.Count() == 9 && old(run.trace) <= run.trace && Final in Fresh(run.trace)
    ensures r.Done? ==> Ready in Fresh(run.trace) && Drive in Fresh(run.trace) && run.todo == [Started(PowerOff)]
    ensures r.Raise? && run.calm ==> run.todo == POWER_OFF
    ensures run.calm ==> r == if run.obstacle.Some? then Raise(run.obstacle.value) else Done
  {
    hide Fresh, Commands, Guarded;
    if run.calm && run.obstacle.Some? {
      return Raise(run.obstacle.value);
    }
    r := run.Check(Ready);
    :- r;
    r := run.Check(Drive);
  }

  datatype Kind = CancelledError | SafetyError | MediaError

  /** How `execute` ends; an escaped exception has passed none of its `except` clauses. */
  datatype Outcome = Completed(poweredOff: bool) | Raised(kind: Kind, incomplete: bool) | Escaped(e: Exc)

  /** The `except` clauses of `execute`, in order. */
  function Handled(e: Exc, attempted: bool): Outcome {
    match e
    case FormatCancelled => Raised(CancelledError, attempted)
    case ConstructedCancelled => Raised(CancelledError, attempted)
    case CasperCancelled => if attempted then Raised(CancelledError, true) else Raised(CancelledError, false)
    case CasperSafety => if attempted then Raised(SafetyError, true) else Raised(SafetyError, false)
    case ConstructedSafety => if attempted then Raised(SafetyError, true) else Raised(SafetyError, false)
    case _ => Raised(MediaError, attempted)
  }

  /** A cancellation is reported as one, a refusal on grounds of safety as one, and all else as a plain failure. */
  lemma HandledKeepsTheKind(e: Exc, attempted: bool)
    ensures
      var kind := Handled(e, attempted).kind;
      && (kind == CancelledError <==> e in {FormatCancelled, ConstructedCancelled, CasperCancelled})
      && (kind == SafetyError <==> e in {CasperSafety, ConstructedSafety})
      && Handled(e, attempted).incomplete == attempted
  {
  }

  /** How a run ends in which nothing raises but the obstacle. */
  function CalmAttempt(obstacle: Option<Exc>): Attempt {
    match obstacle
    case None => Answer(true)
    case Some(e) => if CaughtChecking(e) then Answer(false) else Escape(e)
  }

  function CalmEnding(obstacle: Option<Exc>): Outcome {
    match CalmAttempt(obstacle)
    case Answer(poweredOff) => Completed(poweredOff)
    case Escape(e) => Escaped(e)
  }

  /** The media counts as complete, and the verification before that has been passed since it was populated. */
  predicate Verified(t: Trace) {
    Reported(Complete) in t && (|Commands(t)| == 10 || (|Commands(t)| == 9 && Final in Fresh(t)))
  }

  /** A finished run: what its trace and its outcome say about each other. */
  predicate Finished(t: Trace, r: Outcome) {
    && Guarded(t) && Commands(t) <= SCRIPT
    && (r.Raised? ==> (r.incomplete <==> Reported(CreatingTable) in t))
    && (r.Escaped? ==> t <= OPENING || (Verified(t) && !r.e.System?))
    && (r.Completed? ==> Verified(t) && (r.poweredOff ==> Commands(t) == SCRIPT))
    && (Commands(t) == SCRIPT ==> Reported(Complete) in t)
  }

  /**
   `execute`: commands run in the order of the script, each only after the fresh checks it needs; an exception that
   the `except` clauses see says incomplete exactly when the new partition table had been announced; one that they do
   not see came before everything, or from the power-off attempt, which follows the final verification.
   */
  method Execute(run: Runner) returns (r: Outcome)
    requires run.Valid() && run.trace == [] && !run.safeToPowerOff
    modifies run
    ensures run.used && Finished(run.trace, r) && run.trace <= Whole(run.mounts)
    ensures r.Completed? ==> OPENING + Body(run.mounts) <= run.trace
    ensures old(run.used) ==> r == Escaped(CasperSafety) && run.trace == []
    ensures run.calm && !old(run.used) ==> r == CalmEnding(run.obstacle) && Verified(run.trace)
    ensures run.calm && !old(run.used) ==>
      run.trace == if run.obstacle.None? then Whole(run.mounts) else OPENING + Body(run.mounts)
  {
    hide Fresh, Guarded, Body, Verified;
    if run.used {
      return Escaped(CasperSafety);
    }
    run.used := true;
    assert [] + run.todo == run.todo;
    var entered := Enter(run);
    if entered.Raise? {
      return Escaped(entered.e);
    }
    r := BuildAndPowerOff(run);
  }

  /** What `execute` checks before its `try` block. */
  method Enter(run: Runner) returns (r: Step)
    requires run.Valid() && run.trace == [] && OPENING + (Body(run.mounts) + POWER_OFF) == run.todo
    modifies run`trace, run`todo
    ensures run.Valid() && run.Count() == 0
    ensures if r.Done? then run.todo == Body(run.mounts) + POWER_OFF else run.trace <= OPENING
    ensures run.calm ==> r.Done?
  {
    hide Fresh, Guarded, Body, Whole;
    r := run.Check(Plan);
    :- r;
    assert run.todo == OPENING[1..] + (Body(run.mounts) + POWER_OFF);
    :- run.Check(NotCancelled);
    assert run.todo == OPENING[2..] + (Body(run.mounts) + POWER_OFF);
    :- run.Check(Drive);
    assert run.todo == Body(run.mounts) + POWER_OFF;
  }

  /** The `try` block of `execute`, its `except` clauses and its `finally` block. */
  method BuildAndPowerOff(run: Runner) returns (r: Outcome)
    requires run.Valid() && run.Count() == 0 && !run.safeToPowerOff
    requires run.todo == Body(run.mounts) + POWER_OFF
    modifies run`trace, run`todo, run`attempted, run`safeToPowerOff
    ensures run.Valid() && Finished(run.trace, r)
    ensures r.Completed? ==> OPENING + Body(run.mounts) <= run.trace
    ensures run.calm ==> r == CalmEnding(run.obstacle) && Verified(run.trace)
    ensures run.calm ==>
      run.trace == if run.obstacle.None? then Whole(run.mounts) else OPENING + Body(run.mounts)
  {
    hide Fresh, Guarded, Commands, Body, Whole;
    var built := Build(run);
    r := if built.Done? then Completed(false) else Handled(built.e, run.attempted);
    if run.safeToPowerOff {
      BodyIsBehind(run.trace, run.mounts);
      var attempt := TryPowerOff(run);
      if attempt.Escape? {
        // it leaves the `finally` block in place of whatever was pending
        r := Escaped(attempt.e);
      } else if built.Done? {
        r := Completed(attempt.poweredOff);
      }
    }
  }

  lemma BodyIsBehind(trace: Trace, mounts: nat)
    requires trace + POWER_OFF == Whole(mounts)
    ensures trace == OPENING + Body(mounts)
  {
    hide Body;
    assert trace == Whole(mounts)[..|Whole(mounts)| - 3];
  }

  /**
   A run in which nothing goes wrong until `lsblk` prints a list instead of an object at the power-off attempt: the
   caller gets an exception of a foreign class, although the media is complete and verified.
   */
  method UnreadableTargetEscapes(mounts: nat) returns (r: Outcome, ghost t: Trace)
    ensures Finished(t, r) && r == Escaped(Other) && t == OPENING + Body(mounts) && Verified(t)
  {
    hide Fresh, Commands, Guarded, Body;
    var run := new Runner(true, Some(Other), mounts);
    r := Execute(run);
    t := run.trace;
  }

  // ----- what a finished run means

  lemma {:induction false} PrefixCommands(t: Trace, k: nat)
    requires k <= |t|
    ensures Commands(t[..k]) <= Commands(t)
  {
    if k < |t| {
      PrefixCommands(t[..|t| - 1], k);
      assert t[..|t| - 1][..k] == t[..k];
    } else {
      assert t[..k] == t;
    }
  }

  /** A started command is one of the commands counted. */
  lemma {:induction false} StartedIsCounted(t: Trace, k: nat)
    requires k < |t| && t[k].Started? && !t[k].command.Unmount?
    ensures Commands(t[..k]) + [t[k].command] <= Commands(t)
  {
    PrefixCommands(t, k + 1);
    assert t[..k + 1] == t[..k] + [t[k]];
    Extend(t[..k], t[k]);
  }

  lemma CommandOf(t: Trace, r: Outcome, k: nat)
    requires Finished(t, r) && k < |t| && t[k].Started?
    ensures Allowed(t[..k], t[k])
    ensures !t[k].command.Unmount? ==> Commands(t[..k]) + [t[k].command] <= Commands(t) <= SCRIPT
    ensures Commands(t) == SCRIPT ==> Reported(Complete) in t
  {
    if !t[k].command.Unmount? {
      StartedIsCounted(t, k);
    }
  }

  /**
   Once a command that destroys data has started, every exception says that the media is incomplete, unless it escaped
   from the power-off attempt; then the final verification was passed after the last command that changes the media.
   */
  lemma DestructionIsReported(t: Trace, r: Outcome, k: nat) returns (final: nat)
    requires Finished(t, r) && k < |t| && t[k].Started? && (t[k].command == Partition || t[k].command.Mkfs?)
    ensures r.Raised? ==> r.incomplete
    ensures !r.Raised? ==>
      k < final < |t| && t[final] == Checked(Final) && Commands(t[..final]) == SCRIPT[..9] && Reported(Complete) in t
    ensures r.Escaped? ==> !r.e.System?
  {
    CommandOf(t, r, k);
    final := 0;
    if !r.Raised? {
      hide Fresh, Guarded, Commands, Allowed;
      final := WhereVerified(t);
      if final < k {
        StartedIsCounted(t, k);
        PrefixOfPrefix(t, final, k);
        NoLateDestruction(Commands(t[..k]), t[k].command, Commands(t));
      }
    }
  }

  lemma PrefixOfPrefix(t: Trace, i: nat, k: nat)
    requires i <= k <= |t|
    ensures Commands(t[..i]) <= Commands(t[..k])
  {
    PrefixCommands(t[..k], i);
    assert t[..k][..i] == t[..i];
  }

  lemma NoLateDestruction(before: seq<Command>, c: Command, all: seq<Command>)
    requires before + [c] <= all <= SCRIPT && Destroys(c)
    ensures |before| < 9
  {
    assert (before + [c])[|before|] == c;
    assert SCRIPT[|before|] == c;
  }

  /** Where a verified run passed its final verification. */
  lemma WhereVerified(t: Trace) returns (final: nat)
    requires Guarded(t) && Commands(t) <= SCRIPT && Verified(t)
    ensures final < |t| && t[final] == Checked(Final) && Commands(t[..final]) == SCRIPT[..9]
  {
    hide Fresh, Guarded, Commands;
    var end := |t|;
    if |Commands(t)| == 10 {
      end := LastStart(t);
      assert Allowed(t[..end], t[end]) by { AllowedAt(t, end); }
      StartedIsCounted(t, end);
    } else {
      assert t[..end] == t;
    }
    assert Commands(t[..end]) == SCRIPT[..9];
    final := FreshWasChecked(t[..end], Final);
    QuietSpan(t[..end], final);
    assert t[..end][..final] == t[..final];
  }

  lemma AllowedAt(t: Trace, k: nat)
    requires Guarded(t) && k < |t|
    ensures Allowed(t[..k], t[k])
  {
  }

  /** The last command counted, which a whole script ends with. */
  lemma {:induction false} LastStart(t: Trace) returns (k: nat)
    requires Commands(t) != []
    ensures k < |t| && t[k] == Started(Commands(t)[|Commands(t)| - 1]) && !t[k].command.Unmount?
    ensures Commands(t[..k]) == Commands(t)[..|Commands(t)| - 1]
  {
    var before, last := t[..|t| - 1], t[|t| - 1];
    if last.Started? && !last.command.Unmount? {
      k := |t| - 1;
    } else {
      k := LastStart(before);
      assert before[..k] == t[..k];
    }
  }

  /** Checks and reports start no command. */
  lemma {:induction false} QuietSpan(t: Trace, i: nat)
    requires i <= |t| && NoCommand(t, i, |t|)
    ensures Commands(t[..i]) == Commands(t)
  {
    if i < |t| {
      var before := t[..|t| - 1];
      assert forall j :: 0 <= j < |before| ==> before[j] == t[j];
      QuietSpan(before, i);
      assert before[..i] == t[..i];
    } else {
      assert t[..i] == t;
    }
  }

  /** Power-off is the last command, after population, and the final verification has passed since. */
  lemma PowerOffComesLast(t: Trace, r: Outcome, k: nat)
    requires Finished(t, r) && k < |t| && t[k] == Started(PowerOff)
    ensures Commands(t[..k]) == SCRIPT[..9] && Commands(t) == SCRIPT
    ensures Final in Fresh(t[..k]) && Ready in Fresh(t[..k]) && Drive in Fresh(t[..k])
    ensures Reported(Complete) in t
  {
    hide Fresh, Guarded, Commands, Finished;
    CommandOf(t, r, k);
    LastOfTheScript(Commands(t[..k]), Commands(t));
  }

  lemma LastOfTheScript(before: seq<Command>, all: seq<Command>)
    requires before + [PowerOff] <= all <= SCRIPT
    ensures before == SCRIPT[..9] && all == SCRIPT
  {
    assert (before + [PowerOff])[|before|] == PowerOff;
    assert SCRIPT[|before|] == PowerOff;
    assert |before| == 9;
  }

  /** Each filesystem is created once, the data filesystem first, and only after the partition table. */
  lemma FilesystemsComeInOrder(t: Trace, r: Outcome, k: nat)
    requires Finished(t, r) && k < |t| && t[k].Started? && t[k].command.Mkfs?
    ensures t[k].command.i < 2 && Commands(t[..k]) == SCRIPT[..3 + t[k].command.i]
  {
    hide Fresh, Guarded, Commands, Finished;
    CommandOf(t, r, k);
    var before := Commands(t[..k]);
    assert (before + [t[k].command])[|before|] == t[k].command;
    assert SCRIPT[|before|] == t[k].command;
  }

  /** A run of checks and reports, without a command. */
  predicate NoCommand(t: Trace, from: nat, to: nat) {
    forall i :: from <= i < to <= |t| ==> !t[i].Started?
  }

  /** Where a fact that is fresh was established: with no command, and no boundary check, since. */
  lemma {:induction false} FreshWasChecked(t: Trace, fact: Fact) returns (i: nat)
    requires fact in Fresh(t)
    ensures i < |t| && t[i] == Checked(fact) && NoCommand(t, i, |t|)
    ensures !fact.Boundary? ==> forall j :: i <= j < |t| ==> t[j] != Checked(Boundary)
  {
    var before, last := t[..|t| - 1], t[|t| - 1];
    if last == Checked(fact) {
      i := |t| - 1;
    } else {
      i := FreshWasChecked(before, fact);
      assert forall j :: 0 <= j < |before| ==> before[j] == t[j];
    }
  }

  /** What each of the other commands that change the target relies on was checked since the previous command. */
  lemma CommandsAreChecked(t: Trace, r: Outcome, k: nat, fact: Fact) returns (i: nat)
    requires Finished(t, r) && k < |t| && t[k].Started?
    requires
      match t[k].command
      case Partition => fact in {Identity, Sector}
      case UnmountCreated(_) => fact == Formatted
      case Populate => fact == Ready
      case PowerOff => fact in {Final, Ready, Drive}
      case _ => false
    ensures i < k && t[i] == Checked(fact) && NoCommand(t, i, k)
  {
    hide Fresh, Guarded, Commands;
    CommandOf(t, r, k);
    i := FreshWasChecked(t[..k], fact);
    assert forall j :: 0 <= j < k ==> t[..k][j] == t[j];
  }

  /**
   Before each filesystem is created, and since the previous command, identity, sector size, geometry and nodes are
   checked, then the boundary, and then all four once more.
   */
  lemma FilesystemsAreCheckedTwice(t: Trace, r: Outcome, k: nat, fact: Fact)
    returns (first: nat, boundary: nat, second: nat)
    requires Finished(t, r) && k < |t| && t[k].Started? && t[k].command.Mkfs?
    requires fact in {Identity, Sector, Geometry, Nodes}
    ensures first < boundary < second < k && NoCommand(t, first, k)
    ensures t[first] == t[second] == Checked(fact) && t[boundary] == Checked(Boundary)
  {
    CommandOf(t, r, k);
    var before := t[..k];
    boundary := FreshWasChecked(before, Boundary);
    second := FreshWasChecked(before, fact);
    assert t[..k][boundary] == t[boundary] && t[..k][second] == t[second];
    assert Allowed(t[..boundary], t[boundary]);
    first := FreshWasChecked(t[..boundary], fact);
    assert forall i :: 0 <= i < boundary ==> t[..boundary][i] == t[i];
    assert forall i :: 0 <= i < k ==> before[i] == t[i];
  }
}
