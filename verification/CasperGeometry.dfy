/**
 Partition geometry of the two-partition persistence media in isopropyl/casper_media.py, and the explicit-geometry
 check of isopropyl/formatting.py that every layout passes through.
 */
module CasperGeometry {
  import opened Wrappers

  const MIB: nat := 1048576
  const MIN_PERSISTENCE: nat := 256 * MIB
  const ENTRY_ARRAY_BYTES: nat := 128 * 128

  /** The checks of `validate_device` that concern the size. */
  const MINIMUM_DEVICE_SIZE: nat := 16 * MIB

  /** The largest drive `_validate_restore_filesystem_size` lets a FAT32 plan have, whatever its partitions. */
  const MAXIMUM_FAT32_DEVICE: nat := 2 * 1024 * 1024 * MIB

  datatype GeometryError =
    | UnsupportedSector | BadPersistence | TooSmall | BadSpec | Overlap | UnsafeDevice | ContentTooLarge
    | DriveTooLarge

  datatype Role = Data | Persistence

  datatype Spec = Spec(role: Role, start: int, count: int)

  datatype Geometry = Geometry(dataStart: int, dataCount: int, persistenceStart: int, persistenceCount: int)

  function CeilDiv(n: nat, d: nat): nat
    requires d > 0
  {
    (n + d - 1) / d
  }

  /** Sectors of the backup GPT: its entry array and its header. */
  function GptTail(sector: nat): nat
    requires sector > 0
  {
    CeilDiv(ENTRY_ARRAY_BYTES, sector) + 1
  }

  predicate SupportedSector(sector: int) {
    sector == 512 || sector == 4096
  }

  /** `_geometry`; Python's `//` rounds down, as Dafny's `/` does for a positive divisor. */
  function GeometryOf(size: nat, persistence: int, sector: int): Result<Geometry, GeometryError> {
    if !SupportedSector(sector) then Failure(UnsupportedSector)
    else if persistence < MIN_PERSISTENCE || persistence % MIB != 0 then Failure(BadPersistence)
    else
      var alignment := MIB / sector;
      var total := size / sector;
      var alignedEnd := (total - GptTail(sector)) / alignment * alignment;
      var persistenceCount := persistence / sector;
      var persistenceStart := alignedEnd - persistenceCount;
      var dataCount := persistenceStart - alignment;
      if dataCount <= 0 || persistenceStart < alignment then Failure(TooSmall)
      else Success(Geometry(alignment, dataCount, persistenceStart, persistenceCount))
  }

  // ----- what the geometry is for

  /** Where the usable space ends in bytes: the backup entry array starts there. */
  function BackupGptStart(size: nat, sector: nat): int
    requires sector > 0
  {
    (size / sector - GptTail(sector)) * sector
  }

  /** Section 5.3 of the UEFI Specification: protective MBR, header and entry array come first. */
  function PrimaryGptEnd(sector: nat): nat
    requires sector > 0
  {
    (2 + CeilDiv(ENTRY_ARRAY_BYTES, sector)) * sector
  }

  /**
   The layout promised, in bytes: both partitions nonempty, 1 MiB aligned and adjacent, outside both copies of the
   partition table, the persistence partition of the exact size asked for, and less than 1 MiB unused before the
   backup table.
   */
  predicate Promised(g: Geometry, size: nat, persistence: int, sector: int) {
    SupportedSector(sector) &&
    var dataStart, dataEnd := g.dataStart * sector, (g.dataStart + g.dataCount) * sector;
    var start, end := g.persistenceStart * sector, (g.persistenceStart + g.persistenceCount) * sector;
    && g.dataCount > 0 && g.persistenceCount > 0
    && dataStart == MIB && PrimaryGptEnd(sector) <= dataStart
    && dataStart % MIB == 0 && start % MIB == 0 && end % MIB == 0
    && dataEnd == start
    && end - start == persistence
    && end <= BackupGptStart(size, sector) < end + MIB
  }

  lemma Constants()
    ensures MIB / 512 == 2048 && MIB / 4096 == 256
    ensures GptTail(512) == 33 && GptTail(4096) == 5
    ensures PrimaryGptEnd(512) == 17408 && PrimaryGptEnd(4096) == 24576
  {
  }

  lemma GeometryKeepsThePromise(size: nat, persistence: int, sector: int)
    requires GeometryOf(size, persistence, sector).Success?
    ensures Promised(GeometryOf(size, persistence, sector).value, size, persistence, sector)
  {
    if sector == 512 {
      PromiseAt512(size, persistence);
    } else {
      PromiseAt4096(size, persistence);
    }
  }

  lemma PromiseAt512(size: nat, persistence: int)
    requires GeometryOf(size, persistence, 512).Success?
    ensures Promised(GeometryOf(size, persistence, 512).value, size, persistence, 512)
  {
    Constants();
    var g := GeometryOf(size, persistence, 512).value;
    var blocks, kept := (size / 512 - 33) / 2048, persistence / MIB;
    assert persistence == kept * MIB && g.persistenceCount == kept * 2048;
    assert g.persistenceStart == (blocks - kept) * 2048;
  }

  lemma PromiseAt4096(size: nat, persistence: int)
    requires GeometryOf(size, persistence, 4096).Success?
    ensures Promised(GeometryOf(size, persistence, 4096).value, size, persistence, 4096)
  {
    Constants();
    var g := GeometryOf(size, persistence, 4096).value;
    var blocks, kept := (size / 4096 - 5) / 256, persistence / MIB;
    assert persistence == kept * MIB && g.persistenceCount == kept * 256;
    assert g.persistenceStart == (blocks - kept) * 256;
  }

  /** The promise leaves no choice: at most one layout meets it. */
  lemma PromiseIsUnique(g: Geometry, h: Geometry, size: nat, persistence: int, sector: int)
    requires Promised(g, size, persistence, sector) && Promised(h, size, persistence, sector)
    ensures g == h
  {
    Constants();
    SameMultiple(
      (g.persistenceStart + g.persistenceCount) * sector, (h.persistenceStart + h.persistenceCount) * sector,
      BackupGptStart(size, sector));
  }

  lemma SameMultiple(a: int, b: int, limit: int)
    requires a % MIB == 0 && b % MIB == 0 && a <= limit < a + MIB && b <= limit < b + MIB
    ensures a == b
  {
  }

  /** What a device must have for a persistence size: both tables, 1 MiB in front, and at least 1 MiB of data. */
  function SmallestDevice(persistence: int, sector: int): int {
    persistence + 2 * MIB + if sector == 512 then 16896 else 20480
  }

  /** The exact condition of acceptance. */
  lemma AcceptedExactly(size: nat, persistence: int, sector: int)
    ensures GeometryOf(size, persistence, sector).Success? <==>
            && SupportedSector(sector)
            && persistence >= MIN_PERSISTENCE && persistence % MIB == 0
            && size >= SmallestDevice(persistence, sector)
  {
    if SupportedSector(sector) && persistence >= MIN_PERSISTENCE && persistence % MIB == 0 {
      if sector == 512 {
        AcceptedAt512(size, persistence);
      } else {
        AcceptedAt4096(size, persistence);
      }
    }
  }

  lemma AcceptedAt512(size: nat, persistence: int)
    requires persistence >= MIN_PERSISTENCE && persistence % MIB == 0
    ensures GeometryOf(size, persistence, 512).Success? <==> size >= SmallestDevice(persistence, 512)
  {
    Constants();
    var sectors := size / 512 - 33;
    Regroup512(sectors);
    FloorReaches(sectors * 512, persistence + 2 * MIB);
    assert GeometryOf(size, persistence, 512).Success? <==> sectors / 2048 * 2048 * 512 >= persistence + 2 * MIB;
  }

  lemma AcceptedAt4096(size: nat, persistence: int)
    requires persistence >= MIN_PERSISTENCE && persistence % MIB == 0
    ensures GeometryOf(size, persistence, 4096).Success? <==> size >= SmallestDevice(persistence, 4096)
  {
    Constants();
    var sectors := size / 4096 - 5;
    Regroup4096(sectors);
    FloorReaches(sectors * 4096, persistence + 2 * MIB);
    assert GeometryOf(size, persistence, 4096).Success? <==> sectors / 256 * 256 * 4096 >= persistence + 2 * MIB;
  }

  lemma Regroup512(sectors: int)
    ensures sectors / 2048 * 2048 * 512 == sectors * 512 / MIB * MIB
  {
  }

  lemma Regroup4096(sectors: int)
    ensures sectors / 256 * 256 * 4096 == sectors * 4096 / MIB * MIB
  {
  }

  lemma FloorReaches(n: int, goal: int)
    requires goal % MIB == 0
    ensures n / MIB * MIB >= goal <==> n >= goal
  {
  }

  // ----- the explicit-geometry check

  /** Every partition is nonempty, starts after sector 0, and ends where the device does or before. */
  predicate InRange(specs: seq<Spec>, total: int) {
    forall i :: 0 <= i < |specs| ==>
      specs[i].start > 0 && specs[i].count > 0 && specs[i].start + specs[i].count <= total
  }

  /** Partitions appear in the order of their sectors and share none. */
  predicate Disjoint(specs: seq<Spec>) {
    forall i, j :: 0 <= i < j < |specs| ==> specs[i].start + specs[i].count <= specs[j].start
  }

  /** The checks of `validate_multi_plan` that concern explicit geometry. */
  method ValidateExplicitGeometry(specs: seq<Spec>, total: int) returns (r: Option<GeometryError>)
    ensures r.None? <==> InRange(specs, total) && Disjoint(specs)
    ensures r == Some(BadSpec) <==> exists i :: 0 <= i < |specs| && (specs[i].start <= 0 || specs[i].count <= 0)
  {
    var i := 0;
    while i < |specs|
      invariant 0 <= i <= |specs|
      invariant forall k :: 0 <= k < i ==> specs[k].start > 0 && specs[k].count > 0
    {
      if specs[i].start <= 0 || specs[i].count <= 0 {
        return Some(BadSpec);
      }
      i := i + 1;
    }
    var previousEnd := 0;
    i := 0;
    while i < |specs|
      invariant 0 <= i <= |specs|
      invariant InRange(specs[..i], total) && Disjoint(specs[..i])
      invariant forall k :: 0 <= k < i ==> specs[k].start + specs[k].count <= previousEnd
      invariant previousEnd == if i == 0 then 0 else specs[i - 1].start + specs[i - 1].count
    {
      var end := specs[i].start + specs[i].count;
      if specs[i].start < previousEnd || end > total {
        return Some(Overlap);
      }
      previousEnd := end;
      i := i + 1;
    }
    assert specs[..i] == specs;
    return None;
  }

  /** The specs `_layout_for` builds. */
  function Specs(g: Geometry): seq<Spec> {
    [Spec(Data, g.dataStart, g.dataCount), Spec(Persistence, g.persistenceStart, g.persistenceCount)]
  }

  /** The general check can never reject a computed geometry. */
  lemma GeometryPassesTheCheck(size: nat, persistence: int, sector: int)
    requires GeometryOf(size, persistence, sector).Success?
    ensures
      var specs := Specs(GeometryOf(size, persistence, sector).value);
      InRange(specs, size / sector) && Disjoint(specs)
  {
    Constants();
    GeometryKeepsThePromise(size, persistence, sector);
  }

  // ----- the plan

  /** The parts of `CasperMediaPlan` that bind sizes. */
  datatype Plan = Plan(
    size: nat, persistence: int, sector: int, layout: seq<Spec>, dataCapacity: int, requiredCapacity: int)

  /** `_layout_for` */
  function LayoutFor(size: nat, persistence: int, sector: int): Result<seq<Spec>, GeometryError> {
    var geometry := GeometryOf(size, persistence, sector);
    if geometry.Failure? then Failure(geometry.error)
    else if size < MINIMUM_DEVICE_SIZE then Failure(UnsafeDevice)
    else
      var specs := Specs(geometry.value);
      if InRange(specs, size / sector) && Disjoint(specs) then Success(specs) else Failure(Overlap)
  }

  /** `build_casper_media_plan` */
  function BuildPlan(size: nat, persistence: int, sector: int, required: int): Result<Plan, GeometryError> {
    if size < MINIMUM_DEVICE_SIZE then Failure(UnsafeDevice)
    else
      var layout := LayoutFor(size, persistence, sector);
      if layout.Failure? then Failure(layout.error)
      else if required > size then Failure(ContentTooLarge)
      else if size > MAXIMUM_FAT32_DEVICE then Failure(DriveTooLarge)
      else
        var capacity := layout.value[0].count * sector;
        if required > capacity then Failure(ContentTooLarge)
        else Success(Plan(size, persistence, sector, layout.value, capacity, required))
  }

  /** `validate_casper_media_plan` */
  predicate ValidPlan(p: Plan) {
    && p.size >= MINIMUM_DEVICE_SIZE
    && InRange(p.layout, if p.sector > 0 then p.size / p.sector else 0) && Disjoint(p.layout)
    && LayoutFor(p.size, p.persistence, p.sector) == Success(p.layout)
    && |p.layout| == 2
    && p.layout[0].role.Data? && p.layout[1].role.Persistence?
    && p.layout[1].count * p.sector == p.persistence
    && p.dataCapacity == p.layout[0].count * p.sector
    && p.requiredCapacity <= p.size <= MAXIMUM_FAT32_DEVICE
    && p.requiredCapacity <= p.dataCapacity
  }

  /** The plans that validate are exactly the plans that are built. */
  lemma ValidPlansAreBuiltPlans(p: Plan)
    ensures ValidPlan(p) <==> BuildPlan(p.size, p.persistence, p.sector, p.requiredCapacity) == Success(p)
  {
    if BuildPlan(p.size, p.persistence, p.sector, p.requiredCapacity) == Success(p) {
      GeometryKeepsThePromise(p.size, p.persistence, p.sector);
    }
  }

  /**
   What the plan will write, in bytes: data from 1 MiB on and after the primary table, persistence right behind it and
   of the size asked for, both aligned to 1 MiB, and less than 1 MiB unused before the backup table.
   */
  predicate LaidOut(layout: seq<Spec>, size: nat, persistence: int, sector: int) {
    SupportedSector(sector) && |layout| == 2 && layout[0].role.Data? && layout[1].role.Persistence? &&
    var dataStart, dataEnd := layout[0].start * sector, (layout[0].start + layout[0].count) * sector;
    var start, end := layout[1].start * sector, (layout[1].start + layout[1].count) * sector;
    && PrimaryGptEnd(sector) <= dataStart == MIB && dataStart < dataEnd == start && end == start + persistence
    && dataStart % MIB == 0 && start % MIB == 0 && end % MIB == 0
    && end <= BackupGptStart(size, sector) < end + MIB
  }

  /** Every valid plan's layout keeps the promise of the geometry. */
  lemma ValidLayoutsKeepThePromise(p: Plan)
    requires ValidPlan(p)
    ensures LaidOut(p.layout, p.size, p.persistence, p.sector)
  {
    hide GeometryOf;
    GeometryKeepsThePromise(p.size, p.persistence, p.sector);
    var g := GeometryOf(p.size, p.persistence, p.sector).value;
    assert g.dataCount * p.sector > 0 by { DataIsSome(g, p.sector); }
  }

  /** Capacities in bytes: the data partition gets everything the persistence partition leaves. */
  lemma CapacitiesAreExact(p: Plan)
    requires ValidPlan(p)
    ensures
      var end := BackupGptStart(p.size, p.sector) / MIB * MIB;
      p.dataCapacity + p.persistence + MIB == end && p.dataCapacity >= MIB && p.dataCapacity % MIB == 0
  {
    hide GeometryOf, Promised;
    GeometryKeepsThePromise(p.size, p.persistence, p.sector);
    PromisedCapacities(GeometryOf(p.size, p.persistence, p.sector).value, p.size, p.persistence, p.sector);
  }

  lemma PromisedCapacities(g: Geometry, size: nat, persistence: int, sector: int)
    requires Promised(g, size, persistence, sector)
    ensures
      var capacity := g.dataCount * sector;
      && capacity + persistence + MIB == BackupGptStart(size, sector) / MIB * MIB
      && capacity >= MIB && capacity % MIB == 0
  {
    var usable := BackupGptStart(size, sector);
    SameMultiple((g.persistenceStart + g.persistenceCount) * sector, usable / MIB * MIB, usable);
  }

  /** The exact condition under which a plan is built. */
  lemma PlanBuiltExactly(size: nat, persistence: int, sector: int, required: int)
    ensures BuildPlan(size, persistence, sector, required).Success? <==>
            && SupportedSector(sector)
            && persistence >= MIN_PERSISTENCE && persistence % MIB == 0
            && SmallestDevice(persistence, sector) <= size <= MAXIMUM_FAT32_DEVICE
            && required <= BackupGptStart(size, sector) / MIB * MIB - MIB - persistence
  {
    hide Promised, BackupGptStart;
    AcceptedExactly(size, persistence, sector);
    if GeometryOf(size, persistence, sector).Success? && size <= MAXIMUM_FAT32_DEVICE {
      GeometryPassesTheCheck(size, persistence, sector);
      var g := GeometryOf(size, persistence, sector).value;
      var small := Plan(size, persistence, sector, Specs(g), g.dataCount * sector, 0);
      ValidPlansAreBuiltPlans(small);
      assert g.dataCount * sector >= 0 by { GeometryKeepsThePromise(size, persistence, sector); DataIsSome(g, sector); }
      CapacitiesAreExact(small);
      UsableIsInside(size, sector);
    }
  }

  lemma UsableIsInside(size: nat, sector: int)
    requires SupportedSector(sector)
    ensures BackupGptStart(size, sector) / MIB * MIB <= size
  {
  }

  /** The geometry has a layout for a 4 TiB drive, and the plan for it, as for any above 2 TiB, is refused. */
  lemma LargeDrivesAreRefused()
    ensures
      var size, persistence := 4 * 1024 * 1024 * MIB, 256 * MIB;
      && GeometryOf(size, persistence, 512).Success? && LayoutFor(size, persistence, 512).Success?
      && BuildPlan(size, persistence, 512, 100 * MIB) == Failure(DriveTooLarge)
      && BuildPlan(size / 2, persistence, 512, 100 * MIB).Success?
      && BuildPlan(size / 2 + 1, persistence, 512, 100 * MIB) == Failure(DriveTooLarge)
  {
    hide GeometryOf, Promised;
    var size, persistence := 4 * 1024 * 1024 * MIB, 256 * MIB;
    AcceptedExactly(size, persistence, 512);
    GeometryPassesTheCheck(size, persistence, 512);
    PlanBuiltExactly(size / 2, persistence, 512, 100 * MIB);
    AcceptedExactly(size / 2 + 1, persistence, 512);
    GeometryPassesTheCheck(size / 2 + 1, persistence, 512);
  }

  lemma DataIsSome(g: Geometry, sector: int)
    requires g.dataCount >= 0 && SupportedSector(sector)
    ensures g.dataCount * sector >= 0
    ensures g.dataCount > 0 ==> g.dataCount * sector > 0
  {
  }
}
