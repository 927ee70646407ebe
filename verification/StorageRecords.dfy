/** What the storage record keeps from scan to scan, and when storage counts as removed from the deployment. */
module StorageRecords {
  import opened Wrappers
  import opened MountTables
  import opened LibraryStorage

  // ---- which mounts count, and which of them the root is on ----

  ghost predicate IsDeepestAbove(points: set<Path>, root: Path, p: Path) {
    p in points && p <= root && forall q | q in points && q <= root :: |q| <= |p|
  }

  /** The regions: every recorded mount, the one that holds the root now, and those below the root. */
  lemma RegionsAre(root: Path, table: MountTable, recorded: StorageRecord, p: Path)
    ensures p in RegionsOf(root, table, recorded) <==>
            || p in recorded
            || IsDeepestAbove(PointsOf(table), root, p)
            || (p in PointsOf(table) && root <= p && p != root)
  {
    if IsDeepestAbove(PointsOf(table), root, p) {
      DeepestIs(PointsOf(table), root, p);
    }
  }

  /** The root is on the deepest recorded mount at or above it; only without one does the table decide. */
  lemma RootPointIs(root: Path, table: MountTable, recorded: StorageRecord, p: Path)
    ensures RootPointOf(root, table, recorded.Keys) == Some(p) <==>
            || IsDeepestAbove(recorded.Keys, root, p)
            || (IsDeepestAbove(PointsOf(table), root, p) && forall q | q in recorded :: !(q <= root))
  {
    if IsDeepestAbove(recorded.Keys, root, p) {
      DeepestIs(recorded.Keys, root, p);
    } else if IsDeepestAbove(PointsOf(table), root, p) && forall q | q in recorded :: !(q <= root) {
      DeepestIsNone(recorded.Keys, root);
      DeepestIs(PointsOf(table), root, p);
    }
  }

  // ---- what a plan makes of its regions ----

  /** The kind of storage the root was recorded on, or is on when it was not recorded. */
  ghost predicate RootIsOnShare(plan: StoragePlan)
    requires plan.Valid()
  {
    var region := plan.regions[plan.rootPoint];
    var entry := if region.recorded.Some? then region.recorded else region.current;
    entry.Some? && (entry.value.fsType == "cifs" || entry.value.fsType == "smb3" || entry.value.fsType == "smbfs"
                    || entry.value.fsType == "nfs" || entry.value.fsType == "nfs4"
                    || entry.value.fsType == "fuse.rclone" || entry.value.fsType == "fuse.sshfs")
  }

  /** A failure stops the scan only at a root that is healthy on a network share; any other path is skipped. */
  lemma OnlyAHealthyShareAborts(plan: StoragePlan, path: Path)
    requires plan.Valid()
    ensures plan.FailureDecisionFor(path) == Abort <==>
            path == plan.rootPath && plan.regions[plan.rootPoint].verdict == Healthy && RootIsOnShare(plan)
  {
  }

  /** The root is walked unless its folder or its storage is away; below it exactly the bad mounts are left out. */
  lemma WalkedUnlessAway(plan: StoragePlan, d: Path)
    requires plan.Valid()
    ensures plan.SkipsTraversal() <==> plan.rootMissing || plan.regions[plan.rootPoint].verdict.Abnormal?
    ensures d in plan.ExcludedDirectories() <==>
            d in plan.regions && d != plan.rootPoint && plan.regions[d].verdict != Healthy
  {
  }

  lemma RefusedExactlyWhen(plan: StoragePlan, inContainer: bool)
    requires plan.Valid()
    ensures var region := plan.regions[plan.rootPoint];
            && (Decide(plan, inContainer).Unavailable? <==>
                region.verdict.Abnormal? && (RootIsOnShare(plan) || region.recorded.None?))
            && (Decide(plan, inContainer).Unavailable? ==> Decide(plan, inContainer).issue == region.verdict.issue)
            && (Decide(plan, inContainer).Available? ==> Decide(plan, inContainer).plan == plan)
  {
  }

  /** Without a mount table, or without any mount for the root, the library is unavailable. */
  lemma UnavailableWithoutMount(env: Environment, root: Path, recorded: StorageRecord)
    requires env.table.Some? ==> RootPointOf(root, env.table.value, recorded.Keys).None?
    ensures Assess(env, root, recorded) == Unavailable(StorageIssue(MountTableUnavailable, root, None, None))
  {
  }

  /** Otherwise it is unavailable exactly when its root is abnormal and either a network share or not recorded. */
  lemma UnavailableExactlyWhen(env: Environment, root: Path, rootPoint: Path, recorded: StorageRecord)
    requires env.table.Some? && RootPointOf(root, env.table.value, recorded.Keys) == Some(rootPoint)
    ensures var plan := Judged(env, env.table.value, root, rootPoint, recorded);
            var verdict := plan.regions[rootPoint].verdict;
            && (Assess(env, root, recorded).Unavailable? <==>
                verdict.Abnormal? && (RootIsOnShare(plan) || rootPoint !in recorded))
            && (Assess(env, root, recorded).Unavailable? ==> Assess(env, root, recorded).issue == verdict.issue)
            && (Assess(env, root, recorded).Available? ==> Assess(env, root, recorded).plan == plan)
  {
    var plan := Judged(env, env.table.value, root, rootPoint, recorded);
    assert plan.regions[rootPoint].recorded.Some? <==> rootPoint in recorded by {
      JudgedRegion(env, env.table.value, root, rootPoint, recorded, rootPoint);
    }
    RefusedExactlyWhen(plan, env.inContainer);
  }

  // ---- a scan of healthy storage records exactly what it read ----

  lemma HealthyIsMounted(env: Environment, table: MountTable, root: Path, rootPoint: Path, recorded: StorageRecord,
                         p: Path)
    requires RootPointOf(root, table, recorded.Keys) == Some(rootPoint)
    requires p in Judged(env, table, root, rootPoint, recorded).regions
    requires Judged(env, table, root, rootPoint, recorded).regions[p].verdict == Healthy
    ensures p in PointsOf(table)
  {
  }

  /** Whatever the record says, the deepest mounted region at or above the root is the mount that holds it now. */
  lemma CurrentRootIsHolding(env: Environment, table: MountTable, root: Path, rootPoint: Path, recorded: StorageRecord)
    requires RootPointOf(root, table, recorded.Keys) == Some(rootPoint)
    ensures Judged(env, table, root, rootPoint, recorded).CurrentRoot() == HoldingPoint(table, root)
  {
    var plan := Judged(env, table, root, rootPoint, recorded);
    var mounted := set p | p in plan.regions && plan.regions[p].current.Some?;
    var holding := HoldingPoint(table, root);
    assert forall p | p in mounted :: p in PointsOf(table);
    if holding.Some? {
      assert holding.value in plan.regions;
      DeepestIs(mounted, root, holding.value);
    } else {
      DeepestIsNone(mounted, root);
    }
  }

  /** Unless the root is abnormal, the record names the mounts the scan read: the holding one and those below. */
  lemma RecordIsWhatWasRead(env: Environment, table: MountTable, root: Path, rootPoint: Path, recorded: StorageRecord,
                            p: Path)
    requires RootPointOf(root, table, recorded.Keys) == Some(rootPoint)
    requires !Judged(env, table, root, rootPoint, recorded).RootAbnormal()
    ensures var plan := Judged(env, table, root, rootPoint, recorded);
            p in plan.Record() <==>
            p in plan.regions && plan.regions[p].verdict == Healthy
            && (HoldingPoint(table, root) == Some(p) || p in PointsBelow(table, root))
    ensures p in Judged(env, table, root, rootPoint, recorded).Record() ==>
              EntryAt(table, p) == Some(Judged(env, table, root, rootPoint, recorded).Record()[p])
  {
    CurrentRootIsHolding(env, table, root, rootPoint, recorded);
    var plan := Judged(env, table, root, rootPoint, recorded);
    if p in plan.regions && plan.regions[p].verdict == Healthy {
      HealthyIsMounted(env, table, root, rootPoint, recorded, p);
    }
  }

  /** A scan on an abnormal root keeps the root's record and renews only healthy mounts below the root. */
  lemma AbnormalRootKeepsItsRecord(env: Environment, table: MountTable, root: Path, rootPoint: Path,
                                   recorded: StorageRecord, p: Path)
    requires RootPointOf(root, table, recorded.Keys) == Some(rootPoint)
    requires var plan := Judged(env, table, root, rootPoint, recorded);
             plan.regions[rootPoint].verdict != Healthy && plan.regions[rootPoint].verdict != Removed
    ensures var plan := Judged(env, table, root, rootPoint, recorded);
            && (p in plan.Record() <==>
                || (p == rootPoint && p in recorded)
                || (p in plan.regions && plan.regions[p].verdict == Healthy && root <= p && p != root
                    && p != rootPoint))
            && (p in plan.Record() ==>
                  if p == rootPoint then plan.Record()[p] == recorded[p]
                  else EntryAt(table, p) == Some(plan.Record()[p]))
  {
    var plan := Judged(env, table, root, rootPoint, recorded);
    if p in plan.regions && plan.regions[p].verdict == Healthy {
      HealthyIsMounted(env, table, root, rootPoint, recorded, p);
    }
  }

  ghost predicate AllHealthy(plan: StoragePlan) {
    forall p | p in plan.regions :: plan.regions[p].verdict == Healthy
  }

  /** The mount holding the root and every mount below it, as the table has them. */
  function Mounts(table: MountTable, root: Path): StorageRecord {
    map p | p in RegionPoints(root, table, map[]) && EntryAt(table, p).Some? :: EntryAt(table, p).value
  }

  lemma MountsMembers(table: MountTable, root: Path, p: Path)
    ensures p in Mounts(table, root) <==> HoldingPoint(table, root) == Some(p) || p in PointsBelow(table, root)
    ensures p in Mounts(table, root) ==> EntryAt(table, p) == Some(Mounts(table, root)[p])
  {
  }

  lemma HealthyRecordAt(env: Environment, table: MountTable, root: Path, rootPoint: Path, recorded: StorageRecord,
                        p: Path)
    requires RootPointOf(root, table, recorded.Keys) == Some(rootPoint)
    requires AllHealthy(Judged(env, table, root, rootPoint, recorded))
    ensures var record := Judged(env, table, root, rootPoint, recorded).Record();
            && (p in record <==> p in Mounts(table, root))
            && (p in record ==> record[p] == Mounts(table, root)[p])
  {
    assert rootPoint in Judged(env, table, root, rootPoint, recorded).regions;
    RecordIsWhatWasRead(env, table, root, rootPoint, recorded, p);
    MountsMembers(table, root, p);
  }

  lemma SameMap<K, V>(a: map<K, V>, b: map<K, V>)
    requires forall k :: k in a <==> k in b
    requires forall k | k in a :: k in b ==> a[k] == b[k]
    ensures a == b
  {
  }

  /** With every region healthy, the record is the mount holding the root plus the mounts below it. */
  lemma HealthyRecordIsMounts(env: Environment, table: MountTable, root: Path, rootPoint: Path, recorded: StorageRecord)
    requires RootPointOf(root, table, recorded.Keys) == Some(rootPoint)
    requires AllHealthy(Judged(env, table, root, rootPoint, recorded))
    ensures Judged(env, table, root, rootPoint, recorded).Record() == Mounts(table, root)
  {
    var record, mounts := Judged(env, table, root, rootPoint, recorded).Record(), Mounts(table, root);
    forall p
      ensures p in record <==> p in mounts
      ensures p in record && p in mounts ==> record[p] == mounts[p]
    {
      HealthyRecordAt(env, table, root, rootPoint, recorded, p);
    }
    SameMap(record, mounts);
  }

  lemma HoldingOfMounts(table: MountTable, root: Path)
    requires HoldingPoint(table, root).Some?
    ensures RootPointOf(root, table, Mounts(table, root).Keys) == HoldingPoint(table, root)
  {
    var holding := HoldingPoint(table, root).value;
    var points := Mounts(table, root).Keys;
    assert holding in points;
    DeepestIs(points, root, holding);
  }

  /** Read back with the same table, every region of that record is recorded as what is mounted there. */
  lemma MountsReadBack(table: MountTable, root: Path, p: Path)
    requires p in Mounts(table, root)
    ensures RegionPoints(root, table, Mounts(table, root)) == Mounts(table, root).Keys
    ensures var region := RegionsOf(root, table, Mounts(table, root))[p];
            region.recorded == region.current == Some(Mounts(table, root)[p])
  {
    assert RegionPoints(root, table, Mounts(table, root)) == Mounts(table, root).Keys;
  }

  /**
   * The record of healthy storage is a fixed point: read back with the same mount table it names the same root
   * mount, records every region as what is mounted there, and asks for no known files.
   */
  lemma RecordReadsBack(env: Environment, table: MountTable, root: Path, rootPoint: Path, recorded: StorageRecord,
                        p: Path)
    requires RootPointOf(root, table, recorded.Keys) == Some(rootPoint)
    requires AllHealthy(Judged(env, table, root, rootPoint, recorded))
    requires p in Judged(env, table, root, rootPoint, recorded).Record()
    ensures var record := Judged(env, table, root, rootPoint, recorded).Record();
            && RootPointOf(root, table, record.Keys) == HoldingPoint(table, root)
            && RegionsOf(root, table, record).Keys == record.Keys
            && var region := RegionsOf(root, table, record)[p];
               && region.recorded == region.current == Some(record[p])
               && forall holdsRoot :: !NeedsKnownFiles(region, holdsRoot, true)
  {
    HealthyHolding(env, table, root, rootPoint, recorded);
    HealthyRecordIsMounts(env, table, root, rootPoint, recorded);
    HoldingOfMounts(table, root);
    MountsReadBack(table, root, p);
  }

  lemma HealthyHolding(env: Environment, table: MountTable, root: Path, rootPoint: Path, recorded: StorageRecord)
    requires RootPointOf(root, table, recorded.Keys) == Some(rootPoint)
    requires AllHealthy(Judged(env, table, root, rootPoint, recorded))
    ensures HoldingPoint(table, root).Some?
  {
    assert rootPoint in Judged(env, table, root, rootPoint, recorded).regions;
    HealthyIsMounted(env, table, root, rootPoint, recorded, rootPoint);
  }

  /** The next scan of healthy storage with the same table writes the same record. */
  lemma RecordIsWrittenAgain(env: Environment, later: Environment, table: MountTable, root: Path, rootPoint: Path,
                             nextPoint: Path, recorded: StorageRecord)
    requires RootPointOf(root, table, recorded.Keys) == Some(rootPoint)
    requires AllHealthy(Judged(env, table, root, rootPoint, recorded))
    requires var record := Judged(env, table, root, rootPoint, recorded).Record();
             && RootPointOf(root, table, record.Keys) == Some(nextPoint)
             && AllHealthy(Judged(later, table, root, nextPoint, record))
    ensures var record := Judged(env, table, root, rootPoint, recorded).Record();
            Judged(later, table, root, nextPoint, record).Record() == record
  {
    HealthyRecordIsMounts(env, table, root, rootPoint, recorded);
    HealthyRecordIsMounts(later, table, root, nextPoint, Mounts(table, root));
  }

  // ---- while the root is away ----

  /** A scan with an abnormal root happens only on recorded local storage, and reads nothing. */
  lemma AbnormalRootIsLocal(env: Environment, root: Path, recorded: StorageRecord)
    requires Assess(env, root, recorded).Available?
    requires Assess(env, root, recorded).plan.Valid() && Assess(env, root, recorded).plan.RootAbnormal()
    ensures var plan := Assess(env, root, recorded).plan;
            && plan.SkipsTraversal()
            && plan.rootPoint in recorded
            && Deepest(recorded.Keys, root) == Some(plan.rootPoint)
            && !recorded[plan.rootPoint].IsNetwork()
            && plan.FailureDecisionFor(root) == SkipPath
  {
    var plan := Assess(env, root, recorded).plan;
    assert plan.regions[plan.rootPoint].recorded.Some?;
    assert plan.rootPoint in recorded;
  }

  /** One attempt to scan while the root is away: refused, or done on an abnormal root. */
  ghost predicate AwayStep(env: Environment, root: Path, before: StorageRecord, after: StorageRecord) {
    var assessment := Assess(env, root, before);
    || (assessment.Unavailable? && after == before)
    || (assessment.Available? && assessment.plan.Valid() && assessment.plan.RootAbnormal()
        && after == assessment.plan.Record())
  }

  /** An abnormal scan keeps the root's record and adds nothing that could hold the root. */
  lemma AwayStepKeepsRoot(env: Environment, root: Path, before: StorageRecord, after: StorageRecord)
    requires AwayStep(env, root, before, after)
    ensures Deepest(after.Keys, root) == Deepest(before.Keys, root)
    ensures Deepest(before.Keys, root).Some? ==>
              var p := Deepest(before.Keys, root).value; p in after && after[p] == before[p]
  {
    if Assess(env, root, before).Available? {
      AbnormalRootIsLocal(env, root, before);
      var plan := Assess(env, root, before).plan;
      var p := plan.rootPoint;
      assert p in plan.regions && plan.RecordedAs(p) == Some(before[p]);
      forall q | q in after && q <= root
        ensures q == p
      {
        assert !StrictlyBelow(q, root) by {
          if root <= q {
            assert q == root;
          }
        }
      }
      DeepestIs(after.Keys, root, p);
    }
  }

  ghost predicate AwayRun(envs: seq<Environment>, root: Path, records: seq<StorageRecord>) {
    && |records| == |envs| + 1
    && forall i | 0 <= i < |envs| :: AwayStep(envs[i], root, records[i], records[i + 1])
  }

  /** However many scans are tried while the root is away, its record stays. */
  lemma {:induction false} RootRecordSurvives(envs: seq<Environment>, root: Path, records: seq<StorageRecord>)
    requires AwayRun(envs, root, records)
    ensures var first, last := records[0], records[|envs|];
            && Deepest(last.Keys, root) == Deepest(first.Keys, root)
            && (Deepest(first.Keys, root).Some? ==>
                  var p := Deepest(first.Keys, root).value; p in last && last[p] == first[p])
  {
    if envs != [] {
      var n := |envs| - 1;
      RootRecordSurvives(envs[..n], root, records[..n + 1]);
      AwayStepKeepsRoot(envs[n], root, records[n], records[n + 1]);
    }
  }

  /**
   * When the recorded storage is mounted again after any such run, it is accepted without looking for known files,
   * and it is healthy as soon as the root can be read in time.
   */
  lemma ReturningStorageIsRecognized(envs: seq<Environment>, root: Path, records: seq<StorageRecord>,
                                     back: Environment, table: MountTable, p: Path)
    requires AwayRun(envs, root, records)
    requires Deepest(records[0].Keys, root) == Some(p)
    requires back.table == Some(table) && EntryAt(table, p).Some?
    requires records[0][p].SameStorageAs(EntryAt(table, p).value)
    ensures var last := records[|envs|];
            && RootPointOf(root, table, last.Keys) == Some(p)
            && !NeedsKnownFiles(RegionsOf(root, table, last)[p], true, last != map[])
            && (back.answersInTime(p) && back.probe(root) == Readable ==>
                  var plan := Judged(back, table, root, p, last);
                  plan.RootRegion().verdict == Healthy && !plan.SkipsTraversal())
  {
    RootRecordSurvives(envs, root, records);
  }

  // ---- storage removed from the deployment ----

  /** The rule as documented: in a container, every recorded mount is gone. */
  ghost predicate EveryRecordedMountRemoved(plan: StoragePlan) {
    && (exists p :: p in plan.regions && plan.regions[p].recorded.Some?)
    && forall p | p in plan.regions && plan.regions[p].recorded.Some? :: plan.regions[p].verdict == Removed
  }

  lemma JudgedRegion(env: Environment, table: MountTable, root: Path, rootPoint: Path, recorded: StorageRecord, p: Path)
    requires RootPointOf(root, table, recorded.Keys) == Some(rootPoint)
    requires p in Judged(env, table, root, rootPoint, recorded).regions
    ensures var region := Judged(env, table, root, rootPoint, recorded).regions[p];
            && region.recorded == (if p in recorded then Some(recorded[p]) else None)
            && region.current == EntryAt(table, p)
            && region.verdict
               == JudgeRegion(env, table, root, p, RegionOf(table, recorded, p), p == rootPoint, recorded != map[]).0
  {
  }

  lemma RemovedRegion(env: Environment, table: MountTable, root: Path, p: Path, region: Region,
                      holdsRoot: bool, hasRecord: bool)
    ensures JudgeRegion(env, table, root, p, region, holdsRoot, hasRecord).0 == Removed <==>
            env.answersInTime(p) && region.current.None? && env.inContainer && p != []
  {
  }

  lemma SlashIsNeverRemoved(env: Environment, table: MountTable, root: Path, rootPoint: Path, recorded: StorageRecord,
                            p: Path)
    requires RootPointOf(root, table, recorded.Keys) == Some(rootPoint)
    requires p in Judged(env, table, root, rootPoint, recorded).regions
    requires Judged(env, table, root, rootPoint, recorded).regions[p].verdict == Removed
    ensures p != [] && env.inContainer && p !in PointsOf(table)
  {
    JudgedRegion(env, table, root, rootPoint, recorded, p);
    RemovedRegion(env, table, root, p, RegionOf(table, recorded, p), p == rootPoint, recorded != map[]);
  }

  lemma ConfiguredPoints(env: Environment, table: MountTable, root: Path, rootPoint: Path, recorded: StorageRecord)
    requires RootPointOf(root, table, recorded.Keys) == Some(rootPoint)
    ensures Configured(Judged(env, table, root, rootPoint, recorded)) == recorded.Keys - {[]}
  {
    var plan := Judged(env, table, root, rootPoint, recorded);
    forall p
      ensures p in Configured(plan) <==> p in recorded && p != []
    {
      if p in plan.regions {
        JudgedRegion(env, table, root, rootPoint, recorded, p);
      } else {
        assert p !in recorded;
      }
    }
  }

  /** Every recorded mount but "/" is gone, and there is one. */
  ghost predicate OtherMountsRemoved(plan: StoragePlan) {
    Configured(plan) != {} && forall p | p in Configured(plan) :: plan.regions[p].verdict == Removed
  }

  lemma RemovedMeansContainer(env: Environment, table: MountTable, root: Path, rootPoint: Path, recorded: StorageRecord)
    requires RootPointOf(root, table, recorded.Keys) == Some(rootPoint)
    requires OtherMountsRemoved(Judged(env, table, root, rootPoint, recorded))
    ensures env.inContainer
  {
    var p :| p in Configured(Judged(env, table, root, rootPoint, recorded));
    SlashIsNeverRemoved(env, table, root, rootPoint, recorded, p);
  }

  /** When the outcome is given: every recorded mount but "/" is gone, and the root is not what makes it unavailable. */
  lemma RemovalIsDecidedWhen(env: Environment, root: Path, rootPoint: Path, recorded: StorageRecord)
    requires env.table.Some? && RootPointOf(root, env.table.value, recorded.Keys) == Some(rootPoint)
    ensures var plan := Judged(env, env.table.value, root, rootPoint, recorded);
            Assess(env, root, recorded).RemovedFromDeployment? <==>
            OtherMountsRemoved(plan) && !(plan.RootAbnormal() && (plan.RootIsNetwork() || rootPoint !in recorded))
  {
    var plan := Judged(env, env.table.value, root, rootPoint, recorded);
    JudgedRegion(env, env.table.value, root, rootPoint, recorded, rootPoint);
    if OtherMountsRemoved(plan) {
      RemovedMeansContainer(env, env.table.value, root, rootPoint, recorded);
    }
  }

  /** The documented rule, in terms of the mounts other than "/". */
  lemma DocumentedRuleIs(env: Environment, table: MountTable, root: Path, rootPoint: Path, recorded: StorageRecord)
    requires RootPointOf(root, table, recorded.Keys) == Some(rootPoint)
    ensures var plan := Judged(env, table, root, rootPoint, recorded);
            EveryRecordedMountRemoved(plan) <==> [] !in recorded && OtherMountsRemoved(plan)
  {
    var plan := Judged(env, table, root, rootPoint, recorded);
    ConfiguredPoints(env, table, root, rootPoint, recorded);
    forall p | p in plan.regions
      ensures plan.regions[p].recorded.Some? <==> p in recorded
    {
      JudgedRegion(env, table, root, rootPoint, recorded, p);
    }
    if [] in recorded {
      assert [] in plan.regions;
      if plan.regions[[]].verdict == Removed {
        SlashIsNeverRemoved(env, table, root, rootPoint, recorded, []);
      }
    } else {
      assert Configured(plan) == recorded.Keys;
      assert forall p | p in recorded :: p in plan.regions;
    }
  }

  lemma RecordedRemovedRootIsNotAbnormal(env: Environment, table: MountTable, root: Path, rootPoint: Path,
                                         recorded: StorageRecord)
    requires RootPointOf(root, table, recorded.Keys) == Some(rootPoint) && rootPoint in recorded
    requires EveryRecordedMountRemoved(Judged(env, table, root, rootPoint, recorded))
    ensures !Judged(env, table, root, rootPoint, recorded).RootAbnormal()
  {
    JudgedRegion(env, table, root, rootPoint, recorded, rootPoint);
  }

  /**
   * Without a recorded "/", the documented rule decides, except that an unrecorded root that is abnormal makes the
   * library unavailable instead. With "/" recorded the rule never holds, yet the outcome is given when every other
   * recorded mount is gone and the root is not abnormal network storage.
   */
  lemma RemovalAgainstTheDocumentation(env: Environment, root: Path, rootPoint: Path, recorded: StorageRecord)
    requires env.table.Some? && RootPointOf(root, env.table.value, recorded.Keys) == Some(rootPoint)
    ensures var plan := Judged(env, env.table.value, root, rootPoint, recorded);
            && ([] !in recorded ==>
                  (Assess(env, root, recorded).RemovedFromDeployment? <==>
                   EveryRecordedMountRemoved(plan) && (rootPoint in recorded || !plan.RootAbnormal())))
            && ([] in recorded ==>
                  !EveryRecordedMountRemoved(plan)
                  && (Assess(env, root, recorded).RemovedFromDeployment? <==>
                      OtherMountsRemoved(plan) && !(plan.RootAbnormal() && plan.RootIsNetwork())))
  {
    var plan := Judged(env, env.table.value, root, rootPoint, recorded);
    RemovalIsDecidedWhen(env, root, rootPoint, recorded);
    DocumentedRuleIs(env, env.table.value, root, rootPoint, recorded);
    if rootPoint in recorded && EveryRecordedMountRemoved(plan) {
      RecordedRemovedRootIsNotAbnormal(env, env.table.value, root, rootPoint, recorded);
    }
    if [] in recorded {
      assert rootPoint in recorded.Keys;
    }
  }

  /** The outcome and the documented rule differ in exactly two cases. */
  lemma RemovalDiffersIff(env: Environment, root: Path, rootPoint: Path, recorded: StorageRecord)
    requires env.table.Some? && RootPointOf(root, env.table.value, recorded.Keys) == Some(rootPoint)
    ensures var plan := Judged(env, env.table.value, root, rootPoint, recorded);
            (Assess(env, root, recorded).RemovedFromDeployment? <==> EveryRecordedMountRemoved(plan)) <==>
            !(|| ([] in recorded && OtherMountsRemoved(plan) && !(plan.RootAbnormal() && plan.RootIsNetwork()))
              || (rootPoint !in recorded && EveryRecordedMountRemoved(plan) && plan.RootAbnormal()))
  {
    RemovalAgainstTheDocumentation(env, root, rootPoint, recorded);
    if [] in recorded {
      assert rootPoint in recorded.Keys;
    }
  }

  /** The outcome names exactly the recorded mounts other than "/", and none of them is in the table. */
  lemma RemovalNamesTheMissingMounts(env: Environment, root: Path, rootPoint: Path, recorded: StorageRecord)
    requires env.table.Some? && RootPointOf(root, env.table.value, recorded.Keys) == Some(rootPoint)
    requires Assess(env, root, recorded).RemovedFromDeployment?
    ensures env.inContainer
    ensures Assess(env, root, recorded).mountPoints == recorded.Keys - {[]}
    ensures forall p | p in recorded && p != [] :: p !in PointsOf(env.table.value)
  {
    var plan := Judged(env, env.table.value, root, rootPoint, recorded);
    ConfiguredPoints(env, env.table.value, root, rootPoint, recorded);
    forall p | p in recorded && p != []
      ensures p !in PointsOf(env.table.value)
    {
      assert p in Configured(plan);
      SlashIsNeverRemoved(env, env.table.value, root, rootPoint, recorded, p);
    }
  }

  /** Given the outcome, the documented rule holds exactly when "/" is not recorded. */
  lemma RemovalIsDocumentedUnlessSlashIsRecorded(env: Environment, root: Path, rootPoint: Path, recorded: StorageRecord)
    requires env.table.Some? && RootPointOf(root, env.table.value, recorded.Keys) == Some(rootPoint)
    requires Assess(env, root, recorded).RemovedFromDeployment?
    ensures EveryRecordedMountRemoved(Judged(env, env.table.value, root, rootPoint, recorded)) <==> [] !in recorded
  {
    RemovalAgainstTheDocumentation(env, root, rootPoint, recorded);
  }

  // A library on "/" with one folder mounted below it, in a container.
  const SLASH: MountEntry := MountEntry([], "ext4", "sda")
  const DISK: MountEntry := MountEntry(["media", "disk"], "ext4", "sdb")
  const ROOT: Path := ["media"]
  const RECORDED: StorageRecord := map[[] := SLASH, ["media", "disk"] := DISK]

  function DiskGone(): Environment {
    Environment(Some([SLASH]), true, p => Readable, p => [], p => true)
  }

  lemma RootOfSlash()
    ensures RootPointOf(ROOT, [SLASH], RECORDED.Keys) == Some([])
  {
    DeepestIs(RECORDED.Keys, ROOT, []);
  }

  lemma VerdictsWithoutTheDisk()
    ensures RootPointOf(ROOT, [SLASH], RECORDED.Keys) == Some([])
    ensures var plan := Judged(DiskGone(), [SLASH], ROOT, [], RECORDED);
            && [] in plan.regions && DISK.mountPoint in plan.regions
            && plan.regions[[]].verdict == Healthy && plan.regions[DISK.mountPoint].verdict == Removed
  {
    RootOfSlash();
    var plan := Judged(DiskGone(), [SLASH], ROOT, [], RECORDED);
    assert [] in RECORDED && DISK.mountPoint in RECORDED;
    assert EntryAt([SLASH], []) == Some(SLASH);
    assert PointsOf([SLASH]) == {[]};
    JudgedRegion(DiskGone(), [SLASH], ROOT, [], RECORDED, []);
    JudgedRegion(DiskGone(), [SLASH], ROOT, [], RECORDED, DISK.mountPoint);
  }

  /** Losing the one mount below a healthy root on "/" counts as removing the whole library. */
  lemma HealthyRootCanBeRemoved()
    ensures Assess(DiskGone(), ROOT, RECORDED).RemovedFromDeployment?
    ensures RootPointOf(ROOT, [SLASH], RECORDED.Keys) == Some([])
    ensures Judged(DiskGone(), [SLASH], ROOT, [], RECORDED).RootRegion().verdict == Healthy
  {
    VerdictsWithoutTheDisk();
    ConfiguredPoints(DiskGone(), [SLASH], ROOT, [], RECORDED);
    var plan := Judged(DiskGone(), [SLASH], ROOT, [], RECORDED);
    assert Configured(plan) == {DISK.mountPoint};
  }

  // The record names only the mount below the root, which is gone, and the root cannot be read.
  const ONLY_DISK: StorageRecord := map[["media", "disk"] := DISK]

  function RootFailing(): Environment {
    Environment(Some([SLASH]), true, p => Failing, p => [], p => true)
  }

  lemma RootOfUnrecorded()
    ensures RootPointOf(ROOT, [SLASH], ONLY_DISK.Keys) == Some([])
  {
    assert PointsOf([SLASH]) == {[]};
    assert forall p | p in ONLY_DISK.Keys :: p == DISK.mountPoint && |p| == 2;
    DeepestIsNone(ONLY_DISK.Keys, ROOT);
    DeepestIs(PointsOf([SLASH]), ROOT, []);
  }

  lemma UnrecordedRootIsAbnormal()
    ensures RootPointOf(ROOT, [SLASH], ONLY_DISK.Keys) == Some([])
    ensures var plan := Judged(RootFailing(), [SLASH], ROOT, [], ONLY_DISK);
            [] in plan.regions && plan.regions[[]].verdict.Abnormal? && plan.regions[[]].recorded.None?
  {
    RootOfUnrecorded();
    assert [] !in ONLY_DISK;
    JudgedRegion(RootFailing(), [SLASH], ROOT, [], ONLY_DISK, []);
    VerdictMeans(RootFailing(), [SLASH], ROOT, [], RegionOf([SLASH], ONLY_DISK, []), true, ONLY_DISK != map[]);
  }

  lemma UnmountedDiskIsRemoved()
    ensures RootPointOf(ROOT, [SLASH], ONLY_DISK.Keys) == Some([])
    ensures var plan := Judged(RootFailing(), [SLASH], ROOT, [], ONLY_DISK);
            DISK.mountPoint in plan.regions && plan.regions[DISK.mountPoint].verdict == Removed
  {
    RootOfUnrecorded();
    assert DISK.mountPoint in ONLY_DISK && PointsOf([SLASH]) == {[]};
    JudgedRegion(RootFailing(), [SLASH], ROOT, [], ONLY_DISK, DISK.mountPoint);
    RemovedRegion(RootFailing(), [SLASH], ROOT, DISK.mountPoint, RegionOf([SLASH], ONLY_DISK, DISK.mountPoint), false,
                  ONLY_DISK != map[]);
  }

  /** An unreadable root that is not recorded keeps a library whose every recorded mount is gone. */
  lemma UnrecordedRootKeepsTheLibrary()
    ensures RootPointOf(ROOT, [SLASH], ONLY_DISK.Keys) == Some([]) && [] !in ONLY_DISK
    ensures EveryRecordedMountRemoved(Judged(RootFailing(), [SLASH], ROOT, [], ONLY_DISK))
    ensures !Assess(RootFailing(), ROOT, ONLY_DISK).RemovedFromDeployment?
  {
    UnrecordedRootIsAbnormal();
    UnmountedDiskIsRemoved();
    DocumentedRuleIs(RootFailing(), [SLASH], ROOT, [], ONLY_DISK);
    ConfiguredPoints(RootFailing(), [SLASH], ROOT, [], ONLY_DISK);
    var plan := Judged(RootFailing(), [SLASH], ROOT, [], ONLY_DISK);
    assert Configured(plan) == {DISK.mountPoint};
    RemovalIsDecidedWhen(RootFailing(), ROOT, [], ONLY_DISK);
  }

  // ---- what a verdict means ----

  /** Only the root is questioned: when it is recorded as other storage, or when nothing is recorded at all. */
  ghost predicate Questioned(region: Region, holdsRoot: bool, hasRecord: bool) {
    && holdsRoot && region.current.Some?
    && (region.recorded.Some? ==>
          || region.recorded.value.fsType != region.current.value.fsType
          || region.recorded.value.source != region.current.value.source)
    && (region.recorded.None? ==> !hasRecord)
  }

  /** The record and the sampled files vouch for what is mounted. */
  ghost predicate Vouched(env: Environment, point: Path, region: Region, holdsRoot: bool, hasRecord: bool) {
    Questioned(region, holdsRoot, hasRecord) && env.knownFiles(point) != [] ==>
      exists i | 0 <= i < |env.knownFiles(point)| :: env.knownFiles(point)[i] == Present
  }

  /** Every sampled file is plainly absent. */
  ghost predicate Denied(env: Environment, point: Path, region: Region, holdsRoot: bool, hasRecord: bool) {
    && Questioned(region, holdsRoot, hasRecord) && env.knownFiles(point) != []
    && forall i | 0 <= i < |env.knownFiles(point)| :: env.knownFiles(point)[i] == Absent
  }

  /** No sampled file is there, and looking up one of them failed. */
  ghost predicate Doubted(env: Environment, point: Path, region: Region, holdsRoot: bool, hasRecord: bool) {
    && Questioned(region, holdsRoot, hasRecord)
    && (exists i | 0 <= i < |env.knownFiles(point)| :: env.knownFiles(point)[i] == Failed)
    && forall i | 0 <= i < |env.knownFiles(point)| :: env.knownFiles(point)[i] != Present
  }

  /**
   * Healthy: mounted, answering, vouched for, and readable; for the root, its own mount may answer for a missing
   * folder. Removed: gone from a container. Each abnormal reason has its own cause, and no other.
   */
  lemma VerdictMeans(env: Environment, table: MountTable, root: Path, point: Path, region: Region,
                     holdsRoot: bool, hasRecord: bool)
    ensures var (verdict, missing) := JudgeRegion(env, table, root, point, region, holdsRoot, hasRecord);
            && (verdict == Healthy <==>
                env.answersInTime(point) && region.current.Some? && Vouched(env, point, region, holdsRoot, hasRecord)
                && (env.probe(if holdsRoot then root else point) == Readable
                    || (holdsRoot && env.probe(root) == NotFound && env.probe(point) == Readable)))
            && (verdict == Removed <==>
                env.answersInTime(point) && region.current.None? && env.inContainer && point != [])
            && (missing <==> holdsRoot && verdict == Healthy && env.probe(root) == NotFound)
            && (verdict.Abnormal? && verdict.issue.reason == Timeout <==> !env.answersInTime(point))
            && (verdict.Abnormal? && verdict.issue.reason == Unverified <==>
                env.answersInTime(point) && !hasRecord && Denied(env, point, region, holdsRoot, hasRecord))
            && (verdict.Abnormal? && verdict.issue.reason == NotConnected <==>
                env.answersInTime(point)
                && ((region.current.None? && !(env.inContainer && point != []))
                    || (hasRecord && Denied(env, point, region, holdsRoot, hasRecord))))
            && (verdict.Abnormal? && verdict.issue.reason == Unreadable <==>
                env.answersInTime(point) && region.current.Some?
                && (Doubted(env, point, region, holdsRoot, hasRecord)
                    || (Vouched(env, point, region, holdsRoot, hasRecord)
                        && env.probe(if holdsRoot then root else point) != Readable
                        && !(holdsRoot && env.probe(root) == NotFound && env.probe(point) == Readable))))
            && (verdict.Abnormal? ==>
                  && verdict.issue.mountPoint == point && verdict.issue.expected == region.recorded
                  && verdict.issue.actual ==
                     if env.answersInTime(point) && region.current.None? then EntryHolding(table, point)
                     else region.current)
  {
    var known := env.knownFiles(point);
    assert Present in known <==> exists i | 0 <= i < |known| :: known[i] == Present;
    assert Failed in known <==> exists i | 0 <= i < |known| :: known[i] == Failed;
    assert (forall i | 0 <= i < |known| :: known[i] == Absent) <==> Present !in known && Failed !in known;
  }

  // A library on recorded local storage whose files are all gone from it.
  const SWAPPED: StorageRecord := map[[] := MountEntry([], "ext4", "sdz")]

  function FilesGone(): Environment {
    Environment(Some([SLASH]), false, p => Readable, p => [Absent], p => true)
  }

  lemma RootOfSwapped()
    ensures RootPointOf(ROOT, [SLASH], SWAPPED.Keys) == Some([])
  {
    DeepestIs(SWAPPED.Keys, ROOT, []);
  }

  lemma SwappedIsAbnormal()
    ensures RootPointOf(ROOT, [SLASH], SWAPPED.Keys) == Some([])
    ensures var plan := Judged(FilesGone(), [SLASH], ROOT, [], SWAPPED);
            [] in plan.regions && plan.regions[[]].verdict.Abnormal? && plan.regions[[]].recorded == Some(SWAPPED[[]])
  {
    RootOfSwapped();
    assert [] in SWAPPED;
    assert EntryAt([SLASH], []) == Some(SLASH);
    JudgedRegion(FilesGone(), [SLASH], ROOT, [], SWAPPED, []);
    VerdictMeans(FilesGone(), [SLASH], ROOT, [], RegionOf([SLASH], SWAPPED, []), true, true);
  }

  /**
   * Scans with an abnormal root do happen: local storage that lost the library's files is scanned and
   * keeps its record.
   */
  lemma AbnormalRootIsScanned()
    ensures RootPointOf(ROOT, [SLASH], SWAPPED.Keys) == Some([])
    ensures var plan := Judged(FilesGone(), [SLASH], ROOT, [], SWAPPED);
            plan.RootAbnormal() && Assess(FilesGone(), ROOT, SWAPPED) == Available(plan)
  {
    SwappedIsAbnormal();
    var plan := Judged(FilesGone(), [SLASH], ROOT, [], SWAPPED);
    assert !plan.RootIsNetwork();
    assert Assess(FilesGone(), ROOT, SWAPPED) == Decide(plan, false);
  }
}
