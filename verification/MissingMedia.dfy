/** Which catalog paths a scan may delete: those it did not see, looked up again before anything is removed. */
module MissingMedia {
  import opened Wrappers
  import opened MountTables
  import opened LibraryStorage
  import opened Sequences

  /** What the scan asks for, and what a second look at storage and catalog answers. */
  datatype Inquiry = Inquiry(
    catalog: seq<Path>,
    observed: set<Path>,
    scope: Option<seq<Path>>,
    isIgnored: Path -> bool,
    presence: Path -> Presence,
    rootReadable: bool,
    lookUp: LookUp)

  datatype LookUp = Finished | TimedOut | WorkerLost

  datatype Verification =
    | Verified(presentPaths: seq<Path>, plan: StoragePlan)
    | StorageChanged(unavailable: Option<StorageIssue>)

  datatype WorkerError = WorkerExited

  predicate InScope(q: Inquiry, path: Path) {
    q.scope.Some? ==> exists i | 0 <= i < |q.scope.value| :: q.scope.value[i] <= path
  }

  /** A catalog path the scan should have seen but did not. */
  predicate IsMissing(q: Inquiry, path: Path) {
    path in q.catalog && path !in q.observed && InScope(q, path)
  }

  predicate IsCandidate(q: Inquiry, current: StoragePlan, path: Path)
    requires current.Valid()
  {
    path !in q.observed && InScope(q, path) && !current.IsDeadPath(path) && !q.isIgnored(path)
  }

  function Candidates(q: Inquiry, current: StoragePlan): seq<Path>
    requires current.Valid()
  {
    Keep(q.catalog, path => IsCandidate(q, current, path))
  }

  function PresentPaths(q: Inquiry, current: StoragePlan): seq<Path>
    requires current.Valid()
  {
    Keep(Candidates(q, current), path => q.presence(path) == Present)
  }

  predicate SomeLookUpFailed(q: Inquiry, current: StoragePlan)
    requires current.Valid()
  {
    exists path | path in Candidates(q, current) :: q.presence(path) == Failed
  }

  ghost predicate ValidAssessment(assessment: Assessment) {
    assessment.Available? ==> assessment.plan.Valid()
  }

  method ListCandidates(q: Inquiry, current: StoragePlan) returns (candidates: seq<Path>)
    requires current.Valid()
    ensures candidates == Candidates(q, current)
  {
    candidates := [];
    for i := 0 to |q.catalog|
      invariant candidates == Keep(q.catalog[..i], path => IsCandidate(q, current, path))
    {
      assert q.catalog[..i + 1][..i] == q.catalog[..i];
      if IsCandidate(q, current, q.catalog[i]) {
        candidates := candidates + [q.catalog[i]];
      }
    }
    assert q.catalog[..|q.catalog|] == q.catalog;
  }

  function Verify(q: Inquiry, assessment: Assessment, plan: StoragePlan): Result<Verification, WorkerError>
    requires plan.Valid() && ValidAssessment(assessment)
  {
    if assessment.Unavailable? then Ok(StorageChanged(Some(assessment.issue)))
    else if assessment.RemovedFromDeployment? || !assessment.plan.SameRootStorageAs(plan) then Ok(StorageChanged(None))
    else
      var current := assessment.plan;
      if Candidates(q, current) == [] then Ok(Verified([], current))
      else if q.lookUp.WorkerLost? then Err(WorkerExited)
      else if q.lookUp.TimedOut? then Ok(StorageChanged(None))
      else if SomeLookUpFailed(q, current) && !q.rootReadable
              && current.FailureDecisionFor(current.rootPath) == Abort then
        Ok(StorageChanged(Some(current.OutageIssue())))
      else Ok(Verified(PresentPaths(q, current), current))
  }

  method LookUpAll(q: Inquiry, candidates: seq<Path>) returns (present: seq<Path>, failed: nat)
    ensures present == Keep(candidates, path => q.presence(path) == Present)
    ensures failed > 0 <==> exists path | path in candidates :: q.presence(path) == Failed
  {
    present, failed := [], 0;
    for i := 0 to |candidates|
      invariant present == Keep(candidates[..i], path => q.presence(path) == Present)
      invariant failed > 0 <==> exists path | path in candidates[..i] :: q.presence(path) == Failed
    {
      assert candidates[..i + 1][..i] == candidates[..i];
      assert candidates[..i + 1] == candidates[..i] + [candidates[i]];
      if q.presence(candidates[i]) == Present {
        present := present + [candidates[i]];
      } else if q.presence(candidates[i]) == Failed {
        failed := failed + 1;
      }
    }
    assert candidates[..|candidates|] == candidates;
  }

  method VerifyMissingMediaPaths(q: Inquiry, assessment: Assessment, plan: StoragePlan)
    returns (r: Result<Verification, WorkerError>)
    requires plan.Valid() && ValidAssessment(assessment)
    ensures r == Verify(q, assessment, plan)
  {
    if assessment.Unavailable? {
      return Ok(StorageChanged(Some(assessment.issue)));
    }
    if assessment.RemovedFromDeployment? || !assessment.plan.SameRootStorageAs(plan) {
      return Ok(StorageChanged(None));
    }
    var current := assessment.plan;
    var candidates := ListCandidates(q, current);
    if candidates == [] {
      return Ok(Verified([], current));
    }
    if q.lookUp.WorkerLost? {
      return Err(WorkerExited);
    }
    if q.lookUp.TimedOut? {
      return Ok(StorageChanged(None));
    }
    var present, failed := LookUpAll(q, candidates);
    if failed > 0 && !q.rootReadable && current.FailureDecisionFor(current.rootPath) == Abort {
      return Ok(StorageChanged(Some(current.OutageIssue())));
    }
    return Ok(Verified(present, current));
  }

  // ---- what a verification guarantees ----

  lemma CandidateIs(q: Inquiry, current: StoragePlan, path: Path)
    requires current.Valid()
    ensures path in Candidates(q, current) <==>
            IsMissing(q, path) && !current.IsDeadPath(path) && !q.isIgnored(path)
  {
    KeepMembers(q.catalog, p => IsCandidate(q, current, p), path);
  }

  lemma PresentIs(q: Inquiry, current: StoragePlan, path: Path)
    requires current.Valid()
    ensures path in PresentPaths(q, current) <==>
            IsMissing(q, path) && !current.IsDeadPath(path) && !q.isIgnored(path) && q.presence(path) == Present
  {
    CandidateIs(q, current, path);
    KeepMembers(Candidates(q, current), p => q.presence(p) == Present, path);
  }

  /**
   * A missing path is given up for exactly one of three reasons: its storage is dead, discovery ignores its name,
   * or looking it up did not find it. Nothing else is kept or given up.
   */
  lemma NoUnjustifiedRemoval(q: Inquiry, assessment: Assessment, plan: StoragePlan, path: Path)
    requires plan.Valid() && ValidAssessment(assessment)
    requires var r := Verify(q, assessment, plan); r.Ok? && r.value.Verified?
    ensures var v := Verify(q, assessment, plan).value;
            && v.plan.Valid()
            && (path in v.presentPaths ==> IsMissing(q, path))
            && (IsMissing(q, path) ==>
                  (path !in v.presentPaths <==>
                   v.plan.IsDeadPath(path) || q.isIgnored(path) || q.presence(path) != Present))
  {
    var current := assessment.plan;
    PresentIs(q, current, path);
    CandidateIs(q, current, path);
  }

  /** The mount of a path: the deepest region at or above it, or the root's when there is none. */
  ghost predicate IsHeldBy(plan: StoragePlan, path: Path, point: Path) {
    || (point in plan.regions && point <= path && forall p | p in plan.regions && p <= path :: |p| <= |point|)
    || (point == plan.rootPoint && forall p | p in plan.regions :: !(p <= path))
  }

  /** A path is dead exactly when the mount that holds it, the root's among them, is not healthy. */
  lemma DeadByItsMount(plan: StoragePlan, path: Path, point: Path)
    requires plan.Valid() && IsHeldBy(plan, path, point)
    ensures point in plan.regions
    ensures plan.IsDeadPath(path) <==> plan.regions[point].verdict != Healthy
  {
    if point in plan.regions && point <= path {
      DeepestIs(plan.regions.Keys, path, point);
    } else {
      DeepestIsNone(plan.regions.Keys, path);
    }
  }

  /** A missing path has to be looked up when its storage is alive and its name is not ignored. */
  ghost predicate IsOpen(q: Inquiry, now: StoragePlan, path: Path)
    requires now.Valid()
  {
    && (exists i | 0 <= i < |q.catalog| :: q.catalog[i] == path)
    && path !in q.observed
    && (q.scope.Some? ==> exists i | 0 <= i < |q.scope.value| :: q.scope.value[i] <= path)
    && !now.IsDeadPath(path) && !q.isIgnored(path)
  }

  /** The root mount is at the same place, holds the same storage, judged alike, with its folder as before. */
  ghost predicate SameRoot(now: StoragePlan, scanned: StoragePlan)
    requires now.Valid() && scanned.Valid()
  {
    var a, b := now.regions[now.rootPoint], scanned.regions[scanned.rootPoint];
    && now.rootPoint == scanned.rootPoint && a.current == b.current && now.rootMissing == scanned.rootMissing
    && (a.verdict == Healthy <==> b.verdict == Healthy)
    && (a.verdict == Removed <==> b.verdict == Removed)
  }

  /** Any change of the root's storage between the scan and the check is reported, and nothing is deleted. */
  lemma ChangedRootDeletesNothing(q: Inquiry, assessment: Assessment, plan: StoragePlan)
    requires plan.Valid() && ValidAssessment(assessment) && assessment.Available?
    requires var now := assessment.plan;
             || now.rootPoint != plan.rootPoint
             || now.regions[now.rootPoint].current != plan.regions[plan.rootPoint].current
             || (now.regions[now.rootPoint].verdict == Healthy) != (plan.regions[plan.rootPoint].verdict == Healthy)
             || (now.regions[now.rootPoint].verdict == Removed) != (plan.regions[plan.rootPoint].verdict == Removed)
             || now.rootMissing != plan.rootMissing
    ensures Verify(q, assessment, plan) == Ok(StorageChanged(None))
  {
  }

  lemma OpenPathsAreCandidates(q: Inquiry, now: StoragePlan)
    requires now.Valid()
    ensures forall path :: path in Candidates(q, now) <==> IsOpen(q, now, path)
    ensures Candidates(q, now) == [] <==> forall path :: !IsOpen(q, now, path)
  {
    forall path
      ensures path in Candidates(q, now) <==> IsOpen(q, now, path)
    {
      CandidateIs(q, now, path);
    }
    if Candidates(q, now) != [] {
      assert Candidates(q, now)[0] in Candidates(q, now);
    }
  }

  /** A failed look-up that an unreadable root on a healthy share explains. */
  ghost predicate IsOutage(q: Inquiry, now: StoragePlan)
    requires now.Valid()
  {
    && (exists path :: IsOpen(q, now, path) && q.presence(path) == Failed)
    && !q.rootReadable && now.regions[now.rootPoint].verdict == Healthy && now.RootIsNetwork()
  }

  lemma SameRootIsSameStorage(now: StoragePlan, scanned: StoragePlan)
    requires now.Valid() && scanned.Valid()
    ensures SameRoot(now, scanned) <==> now.SameRootStorageAs(scanned)
  {
  }

  lemma OutageByCandidates(q: Inquiry, now: StoragePlan)
    requires now.Valid()
    ensures IsOutage(q, now) <==>
            SomeLookUpFailed(q, now) && !q.rootReadable && now.FailureDecisionFor(now.rootPath) == Abort
  {
    OpenPathsAreCandidates(q, now);
  }

  lemma VerifiedByCandidates(q: Inquiry, assessment: Assessment, plan: StoragePlan)
    requires plan.Valid() && ValidAssessment(assessment)
    requires assessment.Available? && assessment.plan.SameRootStorageAs(plan)
    ensures var now, r := assessment.plan, Verify(q, assessment, plan);
            r.Ok? && r.value.Verified? <==>
            || Candidates(q, now) == []
            || (q.lookUp.Finished?
                && !(SomeLookUpFailed(q, now) && !q.rootReadable && now.FailureDecisionFor(now.rootPath) == Abort))
  {
  }

  lemma VerifiedOnSameRoot(q: Inquiry, assessment: Assessment, plan: StoragePlan)
    requires plan.Valid() && ValidAssessment(assessment)
    requires assessment.Available? && SameRoot(assessment.plan, plan)
    ensures var now, r := assessment.plan, Verify(q, assessment, plan);
            r.Ok? && r.value.Verified? <==>
            (forall path :: !IsOpen(q, now, path)) || (q.lookUp.Finished? && !IsOutage(q, now))
  {
    SameRootIsSameStorage(assessment.plan, plan);
    VerifiedByCandidates(q, assessment, plan);
    OutageByCandidates(q, assessment.plan);
    OpenPathsAreCandidates(q, assessment.plan);
  }

  /** Deletion is allowed exactly when the root is the storage the scan ran on and no outage explains the failures. */
  lemma VerifiedExactlyWhen(q: Inquiry, assessment: Assessment, plan: StoragePlan)
    requires plan.Valid() && ValidAssessment(assessment)
    ensures var r := Verify(q, assessment, plan);
            r.Ok? && r.value.Verified? <==>
            && assessment.Available?
            && SameRoot(assessment.plan, plan)
            && ((forall path :: !IsOpen(q, assessment.plan, path))
                || (q.lookUp.Finished? && !IsOutage(q, assessment.plan)))
  {
    if assessment.Available? {
      if SameRoot(assessment.plan, plan) {
        VerifiedOnSameRoot(q, assessment, plan);
      } else {
        ChangedRootDeletesNothing(q, assessment, plan);
      }
    }
  }

  /** Every other outcome: a lost worker, a change without an issue, and an outage named with the root's storage. */
  lemma OtherwiseNothingIsDeleted(q: Inquiry, assessment: Assessment, plan: StoragePlan)
    requires plan.Valid() && ValidAssessment(assessment)
    requires assessment.Available? && SameRoot(assessment.plan, plan)
    requires exists path :: IsOpen(q, assessment.plan, path)
    ensures var now, r := assessment.plan, Verify(q, assessment, plan);
            var root := now.regions[now.rootPoint];
            && (r.Err? <==> q.lookUp.WorkerLost?)
            && (r == Ok(StorageChanged(None)) <==> q.lookUp.TimedOut?)
            && (r.Ok? && r.value.StorageChanged? && r.value.unavailable.Some? <==>
                q.lookUp.Finished? && IsOutage(q, now))
            && (r.Ok? && r.value.StorageChanged? && r.value.unavailable.Some? ==>
                  r.value.unavailable.value == StorageIssue(Unreadable, now.rootPoint, root.recorded, root.current))
  {
    OpenPathsAreCandidates(q, assessment.plan);
  }

  /** Storage that cannot be assessed, or that was removed, is reported as a change. */
  lemma UnassessedDeletesNothing(q: Inquiry, assessment: Assessment, plan: StoragePlan)
    requires plan.Valid() && !assessment.Available?
    ensures Verify(q, assessment, plan)
         == Ok(StorageChanged(if assessment.Unavailable? then Some(assessment.issue) else None))
  {
  }

  /** Abnormal network storage under the root: whatever the scan saw, nothing is deleted. */
  lemma AbnormalNetworkRootDeletesNothing(q: Inquiry, env: Environment, root: Path, recorded: StorageRecord,
                                          table: MountTable, rootPoint: Path, plan: StoragePlan)
    requires plan.Valid() && env.table == Some(table)
    requires RootPointOf(root, table, recorded.Keys) == Some(rootPoint)
    requires var judged := Judged(env, table, root, rootPoint, recorded);
             judged.RootAbnormal() && (judged.RootIsNetwork() || rootPoint !in recorded)
    ensures Verify(q, Assess(env, root, recorded), plan)
         == Ok(StorageChanged(Some(Judged(env, table, root, rootPoint, recorded).RootRegion().verdict.issue)))
  {
    assert Judged(env, table, root, rootPoint, recorded).Valid();
  }

  /** A network root that stops answering during the look-ups deletes only if no look-up failed. */
  lemma UnreadableNetworkRootKeepsTheCatalog(q: Inquiry, assessment: Assessment, plan: StoragePlan, path: Path)
    requires plan.Valid() && ValidAssessment(assessment)
    requires var r := Verify(q, assessment, plan); r.Ok? && r.value.Verified?
    requires assessment.plan.RootRegion().verdict == Healthy && assessment.plan.RootIsNetwork() && !q.rootReadable
    requires IsMissing(q, path) && path !in Verify(q, assessment, plan).value.presentPaths
    ensures assessment.plan.IsDeadPath(path) || q.isIgnored(path) || q.presence(path) == Absent
  {
    NoUnjustifiedRemoval(q, assessment, plan, path);
    CandidateIs(q, assessment.plan, path);
  }

  /**
   * Discovery leaves out the dead mounts below the root. A path left out that way is on dead storage, or on a healthy
   * mount further down, where it is looked up; and a dead path is below an excluded mount unless the root itself is
   * dead.
   */
  lemma ExcludedPathsAreDeadOrLookedUp(plan: StoragePlan, path: Path)
    requires plan.Valid()
    ensures (exists d :: d in plan.ExcludedDirectories() && d <= path) && !plan.IsDeadPath(path) ==>
              exists d :: d in plan.ExcludedDirectories() && d < plan.RegionHolding(path) <= path
    ensures plan.IsDeadPath(path) ==>
              plan.RegionHolding(path) == plan.rootPoint
              || exists d :: d in plan.ExcludedDirectories() && d <= path
  {
    var held := plan.RegionHolding(path);
    if d :| d in plan.ExcludedDirectories() && d <= path && !plan.IsDeadPath(path) {
      assert d in plan.regions && Deepest(plan.regions.Keys, path) == Some(held);
      assert |d| <= |held| && d == path[..|d|] && held == path[..|held|];
      assert d != held;
      assert d < held;
    }
    if plan.IsDeadPath(path) && held != plan.rootPoint {
      assert held in plan.ExcludedDirectories() && held <= path;
    }
  }
}
