/**
 * Judging the storage a library lives on: which mounts count, what each one's state is, and what a successful
 * scan writes down. Probes, look-ups and time-outs are what `Environment` answers.
 */
module LibraryStorage {
  import opened Wrappers
  import opened MountTables

  datatype Reason = NotConnected | Unreadable | Timeout | Unverified | MountTableUnavailable

  datatype StorageIssue =
    StorageIssue(reason: Reason, mountPoint: Path, expected: Option<MountEntry>, actual: Option<MountEntry>)

  datatype Verdict = Healthy | Removed | Abnormal(issue: StorageIssue)

  datatype Region = Region(recorded: Option<MountEntry>, current: Option<MountEntry>, verdict: Verdict)

  datatype Probe = Readable | NotFound | Failing

  datatype Presence = Present | Absent | Failed

  /** `knownFiles` holds what the look-ups of the sampled files answer, for the mount being judged. */
  datatype Environment = Environment(
    table: Option<MountTable>,
    inContainer: bool,
    probe: Path -> Probe,
    knownFiles: Path -> seq<Presence>,
    answersInTime: Path -> bool)

  datatype FailureDecision = Abort | SkipPath

  /** What a library remembers of its mounts: each entry under its own mount point. */
  type StorageRecord = map<Path, MountEntry>

  datatype StoragePlan = StoragePlan(rootPath: Path, regions: map<Path, Region>, rootPoint: Path, rootMissing: bool) {

    ghost predicate Valid() {
      rootPoint in regions && rootPoint <= rootPath
    }

    function RootRegion(): Region
      requires Valid()
    {
      regions[rootPoint]
    }

    predicate RootAbnormal()
      requires Valid()
    {
      RootRegion().verdict.Abnormal?
    }

    /** The recorded type decides; without a record the current one does. */
    predicate RootIsNetwork()
      requires Valid()
    {
      var entry := if RootRegion().recorded.Some? then RootRegion().recorded else RootRegion().current;
      entry.Some? && entry.value.IsNetwork()
    }

    predicate SkipsTraversal()
      requires Valid()
    {
      rootMissing || RootAbnormal()
    }

    function ExcludedDirectories(): set<Path> {
      set p | p in regions && p != rootPoint && regions[p].verdict != Healthy
    }

    function RegionHolding(path: Path): Path {
      var point := Deepest(regions.Keys, path);
      if point.Some? then point.value else rootPoint
    }

    predicate IsDeadPath(path: Path)
      requires Valid()
    {
      regions[RegionHolding(path)].verdict != Healthy
    }

    function FailureDecisionFor(path: Path): FailureDecision
      requires Valid()
    {
      if path == rootPath && RootRegion().verdict == Healthy && RootIsNetwork() then Abort else SkipPath
    }

    function OutageIssue(): StorageIssue
      requires Valid()
    {
      StorageIssue(Unreadable, rootPoint, RootRegion().recorded, RootRegion().current)
    }

    /** The deepest region that is mounted now and holds the root. */
    function CurrentRoot(): Option<Path> {
      Deepest((set p | p in regions && regions[p].current.Some?), rootPath)
    }

    function RecordedAs(p: Path): Option<MountEntry>
      requires Valid() && p in regions
    {
      if p == rootPoint && RootAbnormal() then regions[p].recorded
      else if regions[p].verdict == Healthy
           && (StrictlyBelow(p, rootPath) || (!RootAbnormal() && CurrentRoot() == Some(p))) then regions[p].current
      else None
    }

    /** What a successful scan stores. */
    function Record(): StorageRecord
      requires Valid()
    {
      map p | p in regions && RecordedAs(p).Some? :: RecordedAs(p).value
    }

    predicate SameRootStorageAs(other: StoragePlan)
      requires Valid() && other.Valid()
    {
      && rootPoint == other.rootPoint
      && RootRegion().current == other.RootRegion().current
      && SameKind(RootRegion().verdict, other.RootRegion().verdict)
      && rootMissing == other.rootMissing
    }
  }

  predicate SameKind(a: Verdict, b: Verdict) {
    (a.Healthy? && b.Healthy?) || (a.Removed? && b.Removed?) || (a.Abnormal? && b.Abnormal?)
  }

  datatype Assessment =
    | Unavailable(issue: StorageIssue)
    | RemovedFromDeployment(mountPoints: set<Path>)
    | Available(plan: StoragePlan)

  // ---- which mounts count ----

  /** A list of records read as a map: the last one for a mount point counts. */
  function RecordOf(records: seq<MountEntry>): StorageRecord {
    if records == [] then map[]
    else
      var last := records[|records| - 1];
      RecordOf(records[..|records| - 1])[last.mountPoint := last]
  }

  lemma {:induction false} RecordOfPoints(records: seq<MountEntry>)
    ensures RecordOf(records).Keys == PointsOf(records)
    ensures forall p | p in RecordOf(records) :: RecordOf(records)[p].mountPoint == p
  {
    if records != [] {
      var init, last := records[..|records| - 1], records[|records| - 1];
      RecordOfPoints(init);
      assert records == init + [last];
      assert PointsOf(records) == PointsOf(init) + {last.mountPoint};
    }
  }

  function RegionPoints(root: Path, table: MountTable, recorded: StorageRecord): set<Path> {
    var holding := HoldingPoint(table, root);
    recorded.Keys + (if holding.Some? then {holding.value} else {}) + PointsBelow(table, root)
  }

  function RegionOf(table: MountTable, recorded: StorageRecord, p: Path): Region {
    Region(if p in recorded then Some(recorded[p]) else None, EntryAt(table, p), Healthy)
  }

  function RegionsOf(root: Path, table: MountTable, recorded: StorageRecord): map<Path, Region> {
    map p | p in RegionPoints(root, table, recorded) :: RegionOf(table, recorded, p)
  }

  /** The record decides which storage the root belongs to; without one the table does. */
  function RootPointOf(root: Path, table: MountTable, points: set<Path>): Option<Path> {
    var recorded := Deepest(points, root);
    if recorded.Some? then recorded else HoldingPoint(table, root)
  }

  method DeepestRecord(records: seq<MountEntry>, root: Path) returns (deepest: Option<Path>)
    ensures deepest == Deepest(PointsOf(records), root)
  {
    deepest := None;
    for i := 0 to |records|
      invariant deepest.None? ==> forall j | 0 <= j < i :: !(records[j].mountPoint <= root)
      invariant deepest.Some? ==> deepest.value in PointsOf(records) && deepest.value <= root
      invariant deepest.Some? ==> forall j | 0 <= j < i && records[j].mountPoint <= root ::
                                    |records[j].mountPoint| <= |deepest.value|
    {
      var point := records[i].mountPoint;
      if point <= root && (deepest.None? || |point| >= |deepest.value|) {
        assert records[i] in records;
        deepest := Some(point);
      }
    }
    if deepest.Some? {
      DeepestIs(PointsOf(records), root, deepest.value);
    } else {
      DeepestIsNone(PointsOf(records), root);
    }
  }

  /** Adds the mount point if it is new, and its recorded entry if there is one. */
  method Include(regions: map<Path, Region>, table: MountTable, p: Path, recorded: Option<MountEntry>)
    returns (next: map<Path, Region>)
    ensures next.Keys == regions.Keys + {p}
    ensures forall q | q in regions && q != p :: next[q] == regions[q]
    ensures p in regions && recorded.None? ==> next[p] == regions[p]
    ensures p in regions && recorded.Some? ==> next[p] == regions[p].(recorded := recorded)
    ensures p !in regions ==> next[p] == Region(recorded, EntryAt(table, p), Healthy)
  {
    var current := MountAt(table, p);
    var region := if p in regions then regions[p] else Region(None, current, Healthy);
    next := regions[p := if recorded.Some? then region.(recorded := recorded) else region];
  }

  method IncludeAll(start: map<Path, Region>, table: MountTable, points: set<Path>, ghost recorded: StorageRecord)
    returns (regions: map<Path, Region>)
    requires recorded.Keys <= start.Keys
    requires forall p | p in start :: start[p] == RegionOf(table, recorded, p)
    ensures regions.Keys == start.Keys + points
    ensures forall p | p in regions :: regions[p] == RegionOf(table, recorded, p)
  {
    regions := start;
    var rest := points;
    while rest != {}
      invariant rest <= points
      invariant regions.Keys == start.Keys + (points - rest)
      invariant forall p | p in regions :: regions[p] == RegionOf(table, recorded, p)
    {
      var p :| p in rest;
      regions := Include(regions, table, p, None);
      rest := rest - {p};
    }
  }

  method IncludeRecords(table: MountTable, records: seq<MountEntry>) returns (regions: map<Path, Region>)
    ensures regions.Keys == RecordOf(records).Keys
    ensures forall p | p in regions :: regions[p] == RegionOf(table, RecordOf(records), p)
  {
    regions := map[];
    for i := 0 to |records|
      invariant regions.Keys == RecordOf(records[..i]).Keys
      invariant forall p | p in regions :: regions[p] == RegionOf(table, RecordOf(records[..i]), p)
    {
      assert records[..i + 1][..i] == records[..i];
      regions := Include(regions, table, records[i].mountPoint, Some(records[i]));
    }
    assert records[..|records|] == records;
  }

  method BuildRegions(root: Path, table: MountTable, records: seq<MountEntry>)
    returns (regions: map<Path, Region>, rootPoint: Option<Path>)
    ensures regions == RegionsOf(root, table, RecordOf(records))
    ensures rootPoint == RootPointOf(root, table, RecordOf(records).Keys)
  {
    RecordOfPoints(records);
    ghost var recorded := RecordOf(records);
    regions := IncludeRecords(table, records);
    var holding := MountHolding(table, root);
    if holding.Some? {
      regions := IncludeAll(regions, table, {holding.value.mountPoint}, recorded);
    }
    var below := MountsBelow(table, root);
    regions := IncludeAll(regions, table, below.Keys, recorded);
    assert regions.Keys == RegionPoints(root, table, recorded);
    rootPoint := DeepestRecord(records, root);
    if rootPoint.None? && holding.Some? {
      rootPoint := Some(holding.value.mountPoint);
    }
  }

  // ---- judging one mount ----

  datatype KnownFiles = SomePresent | NonePresent | LookUpFailed

  function KnownFilesAnswer(answers: seq<Presence>): KnownFiles {
    if Present in answers then SomePresent else if Failed in answers then LookUpFailed else NonePresent
  }

  method KnownFilesPresent(answers: seq<Presence>) returns (r: KnownFiles)
    ensures r == KnownFilesAnswer(answers)
  {
    var failed := false;
    for i := 0 to |answers|
      invariant Present !in answers[..i]
      invariant failed == (Failed in answers[..i])
    {
      if answers[i] == Present {
        return SomePresent;
      }
      failed := failed || answers[i] == Failed;
    }
    assert answers[..|answers|] == answers;
    return if failed then LookUpFailed else NonePresent;
  }

  /** Only the root is compared with its record. */
  predicate NeedsKnownFiles(region: Region, holdsRoot: bool, hasRecord: bool) {
    && holdsRoot
    && region.current.Some?
    && (if region.recorded.Some? then !region.recorded.value.SameStorageAs(region.current.value) else !hasRecord)
  }

  function AbnormalFor(reason: Reason, point: Path, region: Region, actual: Option<MountEntry>): Verdict {
    Abnormal(StorageIssue(reason, point, region.recorded, actual))
  }

  /** The verdict, and for the root whether its folder is missing from healthy storage. */
  function ProbeRegion(env: Environment, table: MountTable, root: Path, point: Path, region: Region,
                       holdsRoot: bool, hasRecord: bool): (Verdict, bool)
  {
    var known := env.knownFiles(point);
    var answer := KnownFilesAnswer(known);
    var readable := env.probe(if holdsRoot then root else point);
    if region.current.None? then
      if env.inContainer && point != [] then (Removed, false)
      else (AbnormalFor(NotConnected, point, region, EntryHolding(table, point)), false)
    else if NeedsKnownFiles(region, holdsRoot, hasRecord) && known != [] && answer == NonePresent then
      (AbnormalFor(if hasRecord then NotConnected else Unverified, point, region, region.current), false)
    else if NeedsKnownFiles(region, holdsRoot, hasRecord) && known != [] && answer == LookUpFailed then
      (AbnormalFor(Unreadable, point, region, region.current), false)
    else if readable == Readable then (Healthy, false)
    else if holdsRoot && readable == NotFound && env.probe(point) == Readable then (Healthy, true)
    else (AbnormalFor(Unreadable, point, region, region.current), false)
  }

  function JudgeRegion(env: Environment, table: MountTable, root: Path, point: Path, region: Region,
                       holdsRoot: bool, hasRecord: bool): (Verdict, bool)
  {
    if env.answersInTime(point) then ProbeRegion(env, table, root, point, region, holdsRoot, hasRecord)
    else (AbnormalFor(Timeout, point, region, region.current), false)
  }

  function Judged(env: Environment, table: MountTable, root: Path, rootPoint: Path,
                  recorded: StorageRecord): StoragePlan
    requires RootPointOf(root, table, recorded.Keys) == Some(rootPoint)
  {
    var regions := RegionsOf(root, table, recorded);
    var hasRecord := recorded != map[];
    StoragePlan(
      root,
      map p | p in regions ::
        regions[p].(verdict := JudgeRegion(env, table, root, p, regions[p], p == rootPoint, hasRecord).0),
      rootPoint,
      JudgeRegion(env, table, root, rootPoint, regions[rootPoint], true, hasRecord).1)
  }

  /** The recorded mounts that a deployment configures: all but "/". */
  function Configured(plan: StoragePlan): set<Path> {
    set p | p in plan.regions && plan.regions[p].recorded.Some? && p != []
  }

  function Decide(plan: StoragePlan, inContainer: bool): Assessment
    requires plan.Valid()
  {
    var rootRegion := plan.RootRegion();
    if rootRegion.verdict.Abnormal? && (plan.RootIsNetwork() || rootRegion.recorded.None?) then
      Unavailable(rootRegion.verdict.issue)
    else if inContainer && Configured(plan) != {} && forall p | p in Configured(plan) ::
        plan.regions[p].verdict == Removed then
      RemovedFromDeployment(Configured(plan))
    else Available(plan)
  }

  function NoTable(root: Path): StorageIssue {
    StorageIssue(MountTableUnavailable, root, None, None)
  }

  function Assess(env: Environment, root: Path, recorded: StorageRecord): Assessment {
    if env.table.None? then Unavailable(NoTable(root))
    else
      var table := env.table.value;
      var rootPoint := RootPointOf(root, table, recorded.Keys);
      if rootPoint.None? then Unavailable(NoTable(root))
      else Decide(Judged(env, table, root, rootPoint.value, recorded), env.inContainer)
  }

  method JudgeAll(env: Environment, table: MountTable, root: Path, rootPoint: Path, regions: map<Path, Region>,
                  hasRecord: bool)
    returns (judged: map<Path, Region>, rootMissing: bool)
    requires rootPoint in regions
    ensures judged.Keys == regions.Keys
    ensures forall p | p in judged :: judged[p] ==
              regions[p].(verdict := JudgeRegion(env, table, root, p, regions[p], p == rootPoint, hasRecord).0)
    ensures rootMissing == JudgeRegion(env, table, root, rootPoint, regions[rootPoint], true, hasRecord).1
  {
    judged, rootMissing := map[], false;
    var rest := regions.Keys;
    while rest != {}
      invariant rest <= regions.Keys
      invariant judged.Keys == regions.Keys - rest
      invariant forall p | p in judged :: judged[p] ==
                  regions[p].(verdict := JudgeRegion(env, table, root, p, regions[p], p == rootPoint, hasRecord).0)
      invariant rootPoint in judged ==>
                  rootMissing == JudgeRegion(env, table, root, rootPoint, regions[rootPoint], true, hasRecord).1
    {
      var p :| p in rest;
      var (verdict, missing) := JudgeRegion(env, table, root, p, regions[p], p == rootPoint, hasRecord);
      if p == rootPoint {
        rootMissing := missing;
      }
      judged := judged[p := regions[p].(verdict := verdict)];
      rest := rest - {p};
    }
  }

  method AssessLibraryStorage(env: Environment, root: Path, records: seq<MountEntry>) returns (assessment: Assessment)
    ensures assessment == Assess(env, root, RecordOf(records))
  {
    if env.table.None? {
      return Unavailable(NoTable(root));
    }
    RecordOfPoints(records);
    assert records == [] <==> RecordOf(records) == map[] by {
      if records != [] {
        assert records[0].mountPoint in PointsOf(records);
      }
    }
    var table := env.table.value;
    var regions, rootPoint := BuildRegions(root, table, records);
    if rootPoint.None? {
      return Unavailable(NoTable(root));
    }
    var judged, rootMissing := JudgeAll(env, table, root, rootPoint.value, regions, records != []);
    ghost var plan := Judged(env, table, root, rootPoint.value, RecordOf(records));
    assert judged == plan.regions;
    return Decide(StoragePlan(root, judged, rootPoint.value, rootMissing), env.inContainer);
  }
}
