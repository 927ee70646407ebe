/**
 * The audio-track cache as a transition system. Each event is one section that
 * the coordinator runs under a short lock, one file-system call, or one move of
 * a remux that holds a reservation. The maintenance lock is held from the
 * snapshot of the reservations to the commit of the new one; everything else
 * may happen in between, so pruning works from a snapshot that may be stale.
 */
module AudioTrackQuota {
  import opened Wrappers
  import opened Sums
  import opened AudioTrackPruning

  /** A cache file and, as history, the temporary path of the reservation that wrote it. */
  datatype CacheFile = CacheFile(size: nat, modified: int, writer: Option<Path>)

  datatype Lease = Lease(bytes: nat, published: bool)

  /** What the holder of the maintenance lock is doing, with the snapshot it took. */
  datatype Job =
    | Initialize
    | Reserve(temporaryPath: Path, requested: nat, reserved: nat, leases: map<Path, nat>)
  {
    ghost function Snapshot(): map<Path, nat> {
      if Reserve? then leases else map[]
    }

    /** Paths the pruning of this job never touches. */
    ghost function Protected(): set<Path> {
      Snapshot().Keys
    }
  }

  datatype Maintenance =
    | Free
    | Collecting(job: Job, limit: nat, unseen: set<Path>, found: seq<CacheEntry>)
    | Pruning(job: Job, limit: nat, entries: seq<CacheEntry>, retained: nat)
    | Pruned(job: Job, limit: nat, retained: nat)

  datatype World = World(
    quota: nat,
    slots: nat,
    files: map<Path, CacheFile>,
    initialized: bool,
    reservedBytes: nat,
    activeTemporaryPaths: set<Path>,
    leases: map<Path, Lease>,     // reservations not dropped yet
    outputs: map<Path, Path>,     // history: where the file of each reservation lives; names are never reused
    freeSlots: nat,
    admitted: nat,                // admissions not yet consumed by a reservation
    maintenance: Maintenance)

  datatype Event =
    | Admit
    | DropAdmission
    | BeginInitialize
    | BeginReserve(temporaryPath: Path, requested: nat)
    | Observe(path: Path)
    | EndCollect
    | RemoveOldest
    | EndPrune
    | BeginVolumePrune(bytesToFree: nat)
    | Commit
    | Abort
    | Grow(temporaryPath: Path, size: nat, modified: int)
    | Publish(temporaryPath: Path, finalPath: Path)
    | Release(temporaryPath: Path)
    | Vanish(path: Path)

  ghost function Bytes(leases: map<Path, Lease>): map<Path, nat> {
    map t | t in leases :: leases[t].bytes
  }

  ghost predicate Enabled(w: World, e: Event) {
    match e
    case Admit => w.freeSlots > 0
    case DropAdmission => w.admitted > 0
    case BeginInitialize => !w.initialized && w.maintenance.Free?
    case BeginReserve(t, requested) =>
      && w.initialized && w.maintenance.Free? && w.admitted > 0
      && 0 < requested <= w.quota
      && w.reservedBytes + requested <= w.quota
    case Observe(p) => w.maintenance.Collecting? && p in w.files
    case EndCollect =>
      && w.maintenance.Collecting? && w.maintenance.unseen == {}
      && SumSizes(w.maintenance.found) <= U64_MAX
    case RemoveOldest =>
      w.maintenance.Pruning? && w.maintenance.entries != [] && w.maintenance.retained > w.maintenance.limit
    case EndPrune => w.maintenance.Pruning? && w.maintenance.retained <= w.maintenance.limit
    case BeginVolumePrune(_) => w.maintenance.Pruned? && w.maintenance.job.Reserve?
    case Commit =>
      && w.maintenance.Pruned?
      && (w.maintenance.job.Reserve? ==>
            && w.maintenance.job.temporaryPath !in w.outputs
            && w.maintenance.job.temporaryPath !in w.files
            && w.reservedBytes + w.maintenance.job.requested <= U64_MAX)
    case Abort => !w.maintenance.Free?
    case Grow(t, size, _) => t in w.leases && !w.leases[t].published && size <= w.leases[t].bytes
    case Publish(t, p) =>
      && t in w.leases && !w.leases[t].published && t in w.files && t in w.outputs
      && p !in w.outputs
    case Release(t) => t in w.leases
    case Vanish(p) => p in w.files
  }

  /** The directory listing returns every file that stays untouched while it runs. */
  ghost function Touched(m: Maintenance, p: Path): Maintenance {
    if m.Collecting? then m.(unseen := m.unseen - {p}) else m
  }

  ghost function StartCollecting(w: World, job: Job, limit: nat): Maintenance {
    Collecting(job, limit, w.files.Keys - job.Protected(), [])
  }

  ghost function Apply(w: World, e: Event): World
    requires Enabled(w, e)
  {
    var m := w.maintenance;
    match e
    case Admit => w.(freeSlots := w.freeSlots - 1, admitted := w.admitted + 1)
    case DropAdmission => w.(freeSlots := w.freeSlots + 1, admitted := w.admitted - 1)
    case BeginInitialize =>
      w.(maintenance := StartCollecting(w, Initialize, w.quota))
    case BeginReserve(t, requested) =>
      var job := Reserve(t, requested, w.reservedBytes, Bytes(w.leases));
      w.(admitted := w.admitted - 1,
         maintenance := StartCollecting(w, job, w.quota - w.reservedBytes - requested))
    case Observe(p) =>
      w.(maintenance := m.(unseen := m.unseen - {p},
                           found := if p in m.job.Protected() then m.found
                                    else m.found + [CacheEntry(p, w.files[p].size, w.files[p].modified)]))
    case EndCollect =>
      w.(maintenance := Pruning(m.job, m.limit, OldestFirst(m.found), SaturatingSum(m.found)))
    case RemoveOldest =>
      // A file that is already gone counts as removed.
      w.(files := w.files - {m.entries[0].path},
         maintenance := m.(entries := m.entries[1..], retained := SaturatingSub(m.retained, m.entries[0].size)))
    case EndPrune => w.(maintenance := Pruned(m.job, m.limit, m.retained))
    case BeginVolumePrune(bytesToFree) =>
      w.(maintenance := StartCollecting(w, m.job, SaturatingSub(m.retained, bytesToFree)))
    case Commit =>
      if m.job.Initialize? then
        w.(initialized := true, maintenance := Free)
      else
        var t := m.job.temporaryPath;
        w.(reservedBytes := w.reservedBytes + m.job.requested,
           activeTemporaryPaths := w.activeTemporaryPaths + {t},
           leases := w.leases[t := Lease(m.job.requested, false)],
           outputs := w.outputs[t := t],
           maintenance := Free)
    case Abort =>
      w.(freeSlots := w.freeSlots + (if m.job.Reserve? then 1 else 0), maintenance := Free)
    case Grow(t, size, modified) =>
      w.(files := w.files[t := CacheFile(size, modified, Some(t))], maintenance := Touched(m, t))
    case Publish(t, p) =>
      w.(files := (w.files - {t})[p := w.files[t]],
         leases := w.leases[t := w.leases[t].(published := true)],
         outputs := w.outputs[t := p],
         maintenance := Touched(Touched(m, t), p))
    case Release(t) =>
      w.(reservedBytes := SaturatingSub(w.reservedBytes, w.leases[t].bytes),
         activeTemporaryPaths := w.activeTemporaryPaths - {t},
         leases := w.leases - {t},
         freeSlots := w.freeSlots + 1)
    case Vanish(p) => w.(files := w.files - {p}, maintenance := Touched(m, p))
  }

  ghost predicate Start(w: World) {
    && w.quota <= U64_MAX
    && !w.initialized && w.reservedBytes == 0 && w.activeTemporaryPaths == {} && w.leases == map[]
    && w.outputs == map[] && w.admitted == 0 && w.freeSlots == w.slots
    && w.maintenance == Free
    && forall p | p in w.files :: w.files[p].writer == None
  }

  ghost predicate Runs(w: World, events: seq<Event>)
    decreases |events|
  {
    events == [] || (Enabled(w, events[0]) && Runs(Apply(w, events[0]), events[1..]))
  }

  ghost function Run(w: World, events: seq<Event>): World
    requires Runs(w, events)
    decreases |events|
  {
    if events == [] then w else Run(Apply(w, events[0]), events[1..])
  }

  // ---- What the quota bounds ----

  ghost predicate Unpublished(w: World, t: Path) {
    t in w.leases && !w.leases[t].published
  }

  /** Published and stale files at their size. */
  ghost function Settled(w: World): map<Path, nat> {
    map p | p in w.files && !Unpublished(w, p) :: w.files[p].size
  }

  /** Unpublished reservations at their full amount. */
  ghost function Pending(w: World): map<Path, nat> {
    map t | t in w.leases && !w.leases[t].published :: w.leases[t].bytes
  }

  ghost function Footprint(w: World): nat {
    Total(Settled(w)) + Total(Pending(w))
  }

  ghost function FileSizes(w: World): map<Path, nat> {
    map p | p in w.files :: w.files[p].size
  }

  /** Files that no reservation of the snapshot wrote. */
  ghost function Others(w: World, snapshot: map<Path, nat>): map<Path, nat> {
    map p | p in w.files && !(w.files[p].writer.Some? && w.files[p].writer.value in snapshot) :: w.files[p].size
  }

  // ---- Invariant ----

  ghost predicate Bookkeeping(w: World) {
    && w.quota <= U64_MAX
    && w.activeTemporaryPaths == w.leases.Keys
    && w.reservedBytes == Total(Bytes(w.leases)) <= w.quota
    && (forall t | t in w.leases :: t in w.outputs && (!w.leases[t].published ==> w.outputs[t] == t))
    && w.freeSlots + w.admitted + |w.leases|
       + (if !w.maintenance.Free? && w.maintenance.job.Reserve? then 1 else 0) == w.slots
    && (!w.initialized ==> w.leases == map[])
  }

  /** A file knows the reservation that wrote it, and that reservation wrote no other file. */
  ghost predicate FileOk(w: World, p: Path, file: CacheFile) {
    && (p in w.outputs ==> file.writer == Some(p))
    && (file.writer.Some? ==>
          var t := file.writer.value;
          && t in w.outputs && w.outputs[t] == p
          && (t in w.leases ==> file.size <= w.leases[t].bytes && (p == t <==> !w.leases[t].published)))
  }

  ghost predicate Provenance(w: World) {
    forall p | p in w.files :: FileOk(w, p, w.files[p])
  }

  ghost predicate WrittenWithin(file: CacheFile, snapshot: map<Path, nat>) {
    file.writer.Some? && file.writer.value in snapshot ==> file.size <= snapshot[file.writer.value]
  }

  ghost predicate SnapshotCovers(w: World, job: Job) {
    var snapshot := job.Snapshot();
    && (job.Reserve? ==> w.initialized && job.reserved == Total(job.leases) && job.reserved + job.requested <= w.quota)
    && (job.Initialize? ==> !w.initialized)
    && snapshot.Keys <= w.outputs.Keys
    && (forall t | t in w.leases :: t in snapshot && snapshot[t] == w.leases[t].bytes)
    && (forall p | p in w.files :: WrittenWithin(w.files[p], snapshot))
  }

  ghost function BaseLimit(w: World, job: Job): int {
    if job.Initialize? then w.quota else w.quota - job.reserved - job.requested
  }

  ghost predicate MaintenanceOk(w: World) {
    match w.maintenance
    case Free => true
    case Collecting(job, limit, unseen, found) =>
      && SnapshotCovers(w, job) && limit <= BaseLimit(w, job)
      && var others := Others(w, job.Snapshot());
         forall p | p in others :: p in unseen || Listed(found, p, others[p])
    case Pruning(job, limit, entries, retained) =>
      && SnapshotCovers(w, job) && limit <= BaseLimit(w, job)
      && retained == SumSizes(entries)
      && var others := Others(w, job.Snapshot());
         forall p | p in others :: Listed(entries, p, others[p])
    case Pruned(job, limit, retained) =>
      && SnapshotCovers(w, job) && retained <= limit <= BaseLimit(w, job)
      && Total(Others(w, job.Snapshot())) <= retained
  }

  ghost predicate Inv(w: World) {
    && Bookkeeping(w) && Provenance(w) && MaintenanceOk(w)
    && (w.initialized ==> Footprint(w) <= w.quota)
  }

  // ---- Every step keeps the invariant ----

  ghost predicate Background(e: Event) {
    e.Admit? || e.DropAdmission? || e.Grow? || e.Publish? || e.Release? || e.Vanish?
  }

  lemma BookkeepingCommit(w: World)
    requires Bookkeeping(w) && Enabled(w, Commit) && w.maintenance.job.Reserve?
    requires w.initialized && w.reservedBytes + w.maintenance.job.requested <= w.quota
    ensures Bookkeeping(Apply(w, Commit))
  {
    var t := w.maintenance.job.temporaryPath;
    BytesOfCommit(w.leases, t, w.maintenance.job.requested);
    assert Apply(w, Commit).leases.Keys == w.leases.Keys + {t};
  }

  lemma BytesOfCommit(leases: map<Path, Lease>, t: Path, requested: nat)
    requires t !in leases
    ensures Total(Bytes(leases[t := Lease(requested, false)])) == Total(Bytes(leases)) + requested
    ensures |leases[t := Lease(requested, false)]| == |leases| + 1
  {
    assert Bytes(leases[t := Lease(requested, false)]) == Bytes(leases)[t := requested];
    TotalAdd(Bytes(leases), t, requested);
  }

  lemma BookkeepingPublish(w: World, t: Path, p: Path)
    requires Bookkeeping(w) && Enabled(w, Publish(t, p))
    ensures Bookkeeping(Apply(w, Publish(t, p)))
  {
    var w' := Apply(w, Publish(t, p));
    assert Bytes(w'.leases) == Bytes(w.leases);
    assert w'.leases.Keys == w.leases.Keys;
  }

  lemma BookkeepingRelease(w: World, t: Path)
    requires Bookkeeping(w) && Enabled(w, Release(t))
    ensures Bookkeeping(Apply(w, Release(t)))
  {
    var w' := Apply(w, Release(t));
    assert Bytes(w'.leases) == Bytes(w.leases) - {t};
    TotalRemove(Bytes(w.leases), t);
    assert w'.leases.Keys == w.leases.Keys - {t};
  }

  lemma BookkeepingStep(w: World, e: Event)
    requires Inv(w) && Enabled(w, e)
    ensures Bookkeeping(Apply(w, e))
  {
    match e {
      case Commit =>
        if w.maintenance.job.Reserve? {
          LeasesWithinSnapshot(w);
          BookkeepingCommit(w);
        }
      case Publish(t, p) => BookkeepingPublish(w, t, p);
      case Release(t) => BookkeepingRelease(w, t);
      case _ =>
    }
  }

  /** Between a snapshot and its commit reservations are only dropped, so the counter never exceeds the snapshot. */
  lemma LeasesWithinSnapshot(w: World)
    requires Inv(w) && w.maintenance.Pruned? && w.maintenance.job.Reserve?
    ensures w.reservedBytes <= w.maintenance.job.reserved
    ensures w.reservedBytes + w.maintenance.job.requested <= w.quota
  {
    var bytes := Bytes(w.leases);
    TotalInjection(bytes, w.maintenance.job.leases, map t | t in bytes :: t);
  }

  lemma ProvenanceGrow(w: World, t: Path, size: nat, modified: int)
    requires Bookkeeping(w) && Provenance(w) && Enabled(w, Grow(t, size, modified))
    ensures Provenance(Apply(w, Grow(t, size, modified)))
  {
  }

  lemma ProvenancePublish(w: World, t: Path, p: Path)
    requires Bookkeeping(w) && Provenance(w) && Enabled(w, Publish(t, p))
    ensures Provenance(Apply(w, Publish(t, p)))
  {
    var w' := Apply(w, Publish(t, p));
    assert FileOk(w, t, w.files[t]);
    forall q | q in w'.files
      ensures FileOk(w', q, w'.files[q])
    {
      if q != p {
        assert FileOk(w, q, w.files[q]);
      }
    }
  }

  lemma ProvenanceFewer(w: World, e: Event)
    requires Provenance(w) && Enabled(w, e) && (e.RemoveOldest? || e.Vanish?)
    ensures Provenance(Apply(w, e))
  {
    var w' := Apply(w, e);
    forall p | p in w'.files
      ensures FileOk(w', p, w'.files[p])
    {
      assert FileOk(w, p, w.files[p]);
    }
  }

  lemma ProvenanceCommit(w: World)
    requires Bookkeeping(w) && Provenance(w) && Enabled(w, Commit)
    ensures Provenance(Apply(w, Commit))
  {
    var w' := Apply(w, Commit);
    forall p | p in w'.files
      ensures FileOk(w', p, w'.files[p])
    {
      assert FileOk(w, p, w.files[p]);
    }
  }

  lemma ProvenanceRelease(w: World, t: Path)
    requires Provenance(w) && Enabled(w, Release(t))
    ensures Provenance(Apply(w, Release(t)))
  {
    var w' := Apply(w, Release(t));
    forall p | p in w'.files
      ensures FileOk(w', p, w'.files[p])
    {
      assert FileOk(w, p, w.files[p]);
    }
  }

  /** The other steps touch neither files nor reservations. */
  lemma ProvenanceUntouched(w: World, w': World)
    requires Provenance(w) && w'.files == w.files && w'.leases == w.leases && w'.outputs == w.outputs
    ensures Provenance(w')
  {
    forall p | p in w'.files
      ensures FileOk(w', p, w'.files[p])
    {
      assert FileOk(w, p, w.files[p]);
    }
  }

  lemma ProvenanceStep(w: World, e: Event)
    requires Bookkeeping(w) && Provenance(w) && Enabled(w, e)
    ensures Provenance(Apply(w, e))
  {
    if e.Grow? {
      ProvenanceGrow(w, e.temporaryPath, e.size, e.modified);
    } else if e.Publish? {
      ProvenancePublish(w, e.temporaryPath, e.finalPath);
    } else if e.Release? {
      ProvenanceRelease(w, e.temporaryPath);
    } else if e.Commit? {
      ProvenanceCommit(w);
    } else if e.RemoveOldest? || e.Vanish? {
      ProvenanceFewer(w, e);
    } else {
      ProvenanceUntouched(w, Apply(w, e));
    }
  }

  ghost predicate Submap(m: map<Path, nat>, n: map<Path, nat>) {
    forall p | p in m :: p in n && m[p] == n[p]
  }

  lemma SubmapTotal(m: map<Path, nat>, n: map<Path, nat>)
    requires Submap(m, n)
    ensures Total(m) <= Total(n)
  {
    TotalInjection(m, n, map p | p in m :: p);
  }

  lemma BackgroundKeepsSnapshot(w: World, e: Event, job: Job)
    requires Bookkeeping(w) && Provenance(w) && Enabled(w, e) && Background(e) && SnapshotCovers(w, job)
    ensures SnapshotCovers(Apply(w, e), job)
  {
    var w' := Apply(w, e);
    forall p | p in w'.files
      ensures WrittenWithin(w'.files[p], job.Snapshot())
    {
      if p in w.files {
        assert WrittenWithin(w.files[p], job.Snapshot());
      }
    }
  }

  /** Background steps write only files of the snapshot's reservations, so the others can only go. */
  lemma BackgroundOnlyShrinksOthers(w: World, e: Event, job: Job)
    requires Bookkeeping(w) && Provenance(w) && Enabled(w, e) && Background(e) && SnapshotCovers(w, job)
    ensures Submap(Others(Apply(w, e), job.Snapshot()), Others(w, job.Snapshot()))
  {
  }

  lemma BackgroundTouches(w: World, e: Event, job: Job, p: Path)
    requires Bookkeeping(w) && Provenance(w) && Enabled(w, e) && Background(e) && SnapshotCovers(w, job)
    requires p in Others(Apply(w, e), job.Snapshot())
    ensures Apply(w, e).maintenance == w.maintenance
            || (w.maintenance.Collecting? && Apply(w, e).maintenance.Collecting?
                && Apply(w, e).maintenance == w.maintenance.(unseen := Apply(w, e).maintenance.unseen)
                && (p in w.maintenance.unseen ==> p in Apply(w, e).maintenance.unseen))
  {
  }

  lemma MaintenanceBackgroundStep(w: World, e: Event)
    requires Inv(w) && Enabled(w, e) && Background(e) && !w.maintenance.Free?
    ensures MaintenanceOk(Apply(w, e))
  {
    var job := w.maintenance.job;
    BackgroundKeepsSnapshot(w, e, job);
    BackgroundOnlyShrinksOthers(w, e, job);
    forall p | p in Others(Apply(w, e), job.Snapshot()) {
      BackgroundTouches(w, e, job, p);
    }
    SubmapTotal(Others(Apply(w, e), job.Snapshot()), Others(w, job.Snapshot()));
  }

  lemma ObserveStep(w: World, p: Path)
    requires Inv(w) && Enabled(w, Observe(p))
    ensures MaintenanceOk(Apply(w, Observe(p)))
  {
    var w' := Apply(w, Observe(p));
    var job := w.maintenance.job;
    var others := Others(w, job.Snapshot());
    assert others == Others(w', job.Snapshot());
    var found, found' := w.maintenance.found, w'.maintenance.found;
    forall q | q in others
      ensures q in w'.maintenance.unseen || Listed(found', q, others[q])
    {
      if q == p {
        assert found'[|found|].path == p;
      } else if q !in w.maintenance.unseen {
        var i :| 0 <= i < |found| && found[i].path == q && found[i].size == others[q];
        assert found'[i] == found[i];
      }
    }
  }

  lemma EndCollectStep(w: World)
    requires Inv(w) && Enabled(w, EndCollect)
    ensures MaintenanceOk(Apply(w, EndCollect))
  {
    var w' := Apply(w, EndCollect);
    var job := w.maintenance.job;
    var others := Others(w, job.Snapshot());
    assert others == Others(w', job.Snapshot());
    var found, entries := w.maintenance.found, w'.maintenance.entries;
    OldestFirstSorts(found);
    forall q | q in others
      ensures Listed(entries, q, others[q])
    {
      var i :| 0 <= i < |found| && found[i].path == q && found[i].size == others[q];
      assert found[i] in multiset(entries);
      assert found[i] in entries;
    }
  }

  lemma SnapshotOfSubset(w: World, w': World, job: Job)
    requires SnapshotCovers(w, job)
    requires w' == w.(files := w'.files, maintenance := w'.maintenance)
    requires forall p | p in w'.files :: p in w.files && w'.files[p] == w.files[p]
    ensures SnapshotCovers(w', job)
    ensures Submap(Others(w', job.Snapshot()), Others(w, job.Snapshot()))
  {
  }

  lemma ListedInRest(entries: seq<CacheEntry>, q: Path, size: nat)
    requires Listed(entries, q, size) && entries[0].path != q
    ensures Listed(entries[1..], q, size)
  {
    var i :| 0 <= i < |entries| && entries[i].path == q && entries[i].size == size;
    assert entries[1..][i - 1] == entries[i];
  }

  lemma RemoveOldestStep(w: World)
    requires Inv(w) && Enabled(w, RemoveOldest)
    ensures MaintenanceOk(Apply(w, RemoveOldest))
  {
    var w' := Apply(w, RemoveOldest);
    var job, entries := w.maintenance.job, w.maintenance.entries;
    SnapshotOfSubset(w, w', job);
    var others' := Others(w', job.Snapshot());
    forall q | q in others'
      ensures Listed(entries[1..], q, others'[q])
    {
      ListedInRest(entries, q, others'[q]);
    }
  }

  lemma EndPruneStep(w: World)
    requires Inv(w) && Enabled(w, EndPrune)
    ensures MaintenanceOk(Apply(w, EndPrune))
  {
    var w' := Apply(w, EndPrune);
    var others := Others(w, w.maintenance.job.Snapshot());
    assert others == Others(w', w.maintenance.job.Snapshot());
    ListedTotal(w.maintenance.entries, others);
  }

  lemma BeginCollectStep(w: World, e: Event)
    requires Inv(w) && Enabled(w, e) && (e.BeginInitialize? || e.BeginReserve? || e.BeginVolumePrune?)
    ensures MaintenanceOk(Apply(w, e))
  {
  }

  lemma MaintenanceStep(w: World, e: Event)
    requires Inv(w) && Enabled(w, e)
    ensures MaintenanceOk(Apply(w, e))
  {
    if Background(e) {
      if !w.maintenance.Free? {
        MaintenanceBackgroundStep(w, e);
      }
    } else {
      match e {
        case Observe(p) => ObserveStep(w, p);
        case EndCollect => EndCollectStep(w);
        case RemoveOldest => RemoveOldestStep(w);
        case EndPrune => EndPruneStep(w);
        case BeginInitialize => BeginCollectStep(w, e);
        case BeginReserve(_, _) => BeginCollectStep(w, e);
        case BeginVolumePrune(_) => BeginCollectStep(w, e);
        case _ =>
      }
    }
  }

  lemma PublishEndsPending(w: World, t: Path, p: Path)
    requires Enabled(w, Publish(t, p))
    ensures t in Pending(w) && Pending(w)[t] == w.leases[t].bytes
    ensures Pending(Apply(w, Publish(t, p))) == Pending(w) - {t}
  {
  }

  lemma PublishSettles(w: World, t: Path, p: Path)
    requires Bookkeeping(w) && Provenance(w) && Enabled(w, Publish(t, p))
    ensures w.files[t].size <= w.leases[t].bytes
    ensures Settled(Apply(w, Publish(t, p))) == (Settled(w) - {p})[p := w.files[t].size]
  {
    assert w.files[t].writer == Some(t);
  }

  /** Publishing trades the reservation for a file that is no larger. */
  lemma FootprintPublish(w: World, t: Path, p: Path)
    requires Bookkeeping(w) && Provenance(w) && Enabled(w, Publish(t, p))
    ensures Footprint(Apply(w, Publish(t, p))) <= Footprint(w)
  {
    PublishEndsPending(w, t, p);
    PublishSettles(w, t, p);
    TotalRemove(Pending(w), t);
    var kept := Settled(w) - {p};
    TotalAdd(kept, p, w.files[t].size);
    SubmapTotal(kept, Settled(w));
  }

  lemma ReleaseOfPublished(w: World, t: Path)
    requires Enabled(w, Release(t)) && w.leases[t].published
    ensures Pending(Apply(w, Release(t))) == Pending(w) && Settled(Apply(w, Release(t))) == Settled(w)
  {
  }

  lemma ReleaseOfUnpublished(w: World, t: Path)
    requires Enabled(w, Release(t)) && !w.leases[t].published
    ensures t in Pending(w) && Pending(w)[t] == w.leases[t].bytes && t !in Settled(w)
    ensures Pending(Apply(w, Release(t))) == Pending(w) - {t}
    ensures Settled(Apply(w, Release(t))) == if t in w.files then Settled(w)[t := w.files[t].size] else Settled(w)
  {
  }

  /** A dropped reservation leaves at most its stale temporary file. */
  lemma FootprintRelease(w: World, t: Path)
    requires Bookkeeping(w) && Provenance(w) && Enabled(w, Release(t))
    ensures Footprint(Apply(w, Release(t))) <= Footprint(w)
  {
    if w.leases[t].published {
      ReleaseOfPublished(w, t);
    } else {
      ReleaseOfUnpublished(w, t);
      TotalRemove(Pending(w), t);
      if t in w.files {
        assert FileOk(w, t, w.files[t]) && w.files[t].size <= w.leases[t].bytes;
        TotalAdd(Settled(w), t, w.files[t].size);
      }
    }
  }

  lemma FootprintGrow(w: World, t: Path, size: nat, modified: int)
    requires Enabled(w, Grow(t, size, modified))
    ensures Footprint(Apply(w, Grow(t, size, modified))) == Footprint(w)
  {
    var w' := Apply(w, Grow(t, size, modified));
    assert Pending(w') == Pending(w) && Settled(w') == Settled(w);
  }

  lemma FootprintOfSubset(w: World, w': World)
    requires w'.leases == w.leases && forall p | p in w'.files :: p in w.files && w'.files[p] == w.files[p]
    ensures Footprint(w') <= Footprint(w)
  {
    SubmapTotal(Settled(w'), Settled(w));
    assert Pending(w') == Pending(w);
  }

  lemma FootprintShrinks(w: World, e: Event)
    requires Inv(w) && Enabled(w, e) && !e.Commit?
    ensures Footprint(Apply(w, e)) <= Footprint(w)
  {
    if e.Publish? {
      FootprintPublish(w, e.temporaryPath, e.finalPath);
    } else if e.Release? {
      FootprintRelease(w, e.temporaryPath);
    } else if e.Grow? {
      FootprintGrow(w, e.temporaryPath, e.size, e.modified);
    } else {
      FootprintOfSubset(w, Apply(w, e));
    }
  }

  /** Files in use that a reservation of the snapshot wrote. */
  ghost function Written(w: World, snapshot: map<Path, nat>): map<Path, nat> {
    map p | p in Settled(w) && w.files[p].writer.Some? && w.files[p].writer.value in snapshot :: w.files[p].size
  }

  ghost function WriterOf(w: World, p: Path): Path {
    if p in w.files && w.files[p].writer.Some? then w.files[p].writer.value else p
  }

  /** A file outside its temporary path was published, so its reservation is not pending any more. */
  lemma WriterSettled(w: World, job: Job, p: Path)
    requires Bookkeeping(w) && Provenance(w) && SnapshotCovers(w, job)
    requires p in Written(w, job.Snapshot())
    ensures WriterOf(w, p) in job.Snapshot() && WriterOf(w, p) !in Pending(w)
    ensures Written(w, job.Snapshot())[p] <= job.Snapshot()[WriterOf(w, p)]
  {
  }

  lemma WrittenWithinSnapshot(w: World, job: Job)
    requires Bookkeeping(w) && Provenance(w) && SnapshotCovers(w, job)
    ensures Total(Written(w, job.Snapshot())) + Total(Pending(w)) <= Total(job.Snapshot())
  {
    var snapshot, written, pending := job.Snapshot(), Written(w, job.Snapshot()), Pending(w);
    var settled := snapshot - pending.Keys;
    var writers := map p | p in written :: WriterOf(w, p);
    forall p | p in written
      ensures writers[p] in settled && written[p] <= settled[writers[p]]
    {
      WriterSettled(w, job, p);
    }
    forall p, q | p in writers && q in writers && p != q
      ensures writers[p] != writers[q]
    {
      assert w.outputs[writers[p]] == p && w.outputs[writers[q]] == q;
    }
    TotalInjection(written, settled, writers);
    TotalSplit(snapshot, settled, pending);
  }

  lemma OthersSettled(w: World, job: Job, p: Path)
    requires Bookkeeping(w) && Provenance(w) && SnapshotCovers(w, job)
    requires p in Others(w, job.Snapshot())
    ensures !Unpublished(w, p)
  {
  }

  /** Everything in use is either an old file the pruning accounted for, or was written within the snapshot. */
  lemma FootprintWithinSnapshot(w: World, job: Job)
    requires Bookkeeping(w) && Provenance(w) && SnapshotCovers(w, job)
    ensures Footprint(w) <= Total(Others(w, job.Snapshot())) + Total(job.Snapshot())
  {
    forall p | p in Others(w, job.Snapshot())
      ensures !Unpublished(w, p)
    {
      OthersSettled(w, job, p);
    }
    TotalSplit(Settled(w), Others(w, job.Snapshot()), Written(w, job.Snapshot()));
    WrittenWithinSnapshot(w, job);
  }

  lemma CommitAddsPending(w: World)
    requires Bookkeeping(w) && Enabled(w, Commit) && w.maintenance.job.Reserve?
    ensures w.maintenance.job.temporaryPath !in Pending(w)
    ensures Pending(Apply(w, Commit)) == Pending(w)[w.maintenance.job.temporaryPath := w.maintenance.job.requested]
  {
  }

  lemma CommitKeepsSettled(w: World)
    requires Enabled(w, Commit) && w.maintenance.job.Reserve?
    ensures Settled(Apply(w, Commit)) == Settled(w)
  {
  }

  lemma FootprintReserve(w: World)
    requires Bookkeeping(w) && Enabled(w, Commit) && w.maintenance.job.Reserve?
    ensures Footprint(Apply(w, Commit)) == Footprint(w) + w.maintenance.job.requested
  {
    var w' := Apply(w, Commit);
    var t, requested := w.maintenance.job.temporaryPath, w.maintenance.job.requested;
    CommitAddsPending(w);
    CommitKeepsSettled(w);
    TotalAdd(Pending(w), t, requested);
  }

  lemma CommitWithinQuota(w: World)
    requires Inv(w) && Enabled(w, Commit)
    ensures Footprint(Apply(w, Commit)) <= w.quota
  {
    FootprintWithinSnapshot(w, w.maintenance.job);
    if w.maintenance.job.Initialize? {
      FootprintOfSubset(w, Apply(w, Commit));
      assert w.maintenance.job.Snapshot() == map[];
    } else {
      FootprintReserve(w);
    }
  }

  lemma StepKeepsInv(w: World, e: Event)
    requires Inv(w) && Enabled(w, e)
    ensures Inv(Apply(w, e))
  {
    BookkeepingStep(w, e);
    ProvenanceStep(w, e);
    MaintenanceStep(w, e);
    if e.Commit? {
      CommitWithinQuota(w);
    } else {
      FootprintShrinks(w, e);
    }
  }

  lemma StartInv(w: World)
    requires Start(w)
    ensures Inv(w)
  {
    assert Bytes(w.leases) == map[];
  }

  lemma {:induction false} RunKeepsInv(w: World, events: seq<Event>)
    requires Inv(w) && Runs(w, events)
    ensures Inv(Run(w, events))
    decreases |events|
  {
    if events != [] {
      StepKeepsInv(w, events[0]);
      RunKeepsInv(Apply(w, events[0]), events[1..]);
    }
  }

  // ---- Main results ----

  lemma {:induction false} ConstantsOverRun(w: World, events: seq<Event>)
    requires Runs(w, events)
    ensures Run(w, events).quota == w.quota && Run(w, events).slots == w.slots
    decreases |events|
  {
    if events != [] {
      ConstantsOverRun(Apply(w, events[0]), events[1..]);
    }
  }

  ghost function Unfinished(w: World): map<Path, nat> {
    map p | p in w.files && Unpublished(w, p) :: w.files[p].size
  }

  lemma UnfinishedWithinPending(w: World)
    requires Bookkeeping(w) && Provenance(w)
    ensures Total(Unfinished(w)) <= Total(Pending(w))
  {
    forall p | p in Unfinished(w)
      ensures p in Pending(w) && Unfinished(w)[p] <= Pending(w)[p]
    {
      assert w.files[p].writer == Some(p);
    }
    TotalInjection(Unfinished(w), Pending(w), map p | p in Unfinished(w) :: p);
  }

  /** Bytes on disk never exceed the footprint: a temporary file stays within its reservation. */
  lemma DiskWithinFootprint(w: World)
    requires Bookkeeping(w) && Provenance(w)
    ensures Total(FileSizes(w)) <= Footprint(w)
  {
    UnfinishedWithinPending(w);
    TotalSplit(FileSizes(w), Settled(w), Unfinished(w));
  }

  /**
   * In every interleaving of reservations, pruning from a stale snapshot, growing temporary files,
   * publication, release and outside removal, the quota holds once the cache is initialized,
   * the counter is the sum of the live reservations, and so are the protected paths.
   */
  lemma QuotaHoldsInEveryRun(start: World, events: seq<Event>)
    requires Start(start) && Runs(start, events)
    ensures var w := Run(start, events);
      && (w.initialized ==> Footprint(w) <= start.quota && Total(FileSizes(w)) <= start.quota)
      && w.reservedBytes == Total(Bytes(w.leases)) <= start.quota
      && w.activeTemporaryPaths == w.leases.Keys
  {
    StartInv(start);
    RunKeepsInv(start, events);
    ConstantsOverRun(start, events);
    DiskWithinFootprint(Run(start, events));
  }

  /** Admissions are conserved, so no more remuxes hold a reservation than there are slots. */
  lemma RemuxesWithinSlots(start: World, events: seq<Event>)
    requires Start(start) && Runs(start, events)
    ensures var w := Run(start, events);
      w.freeSlots + w.admitted + |w.leases|
      + (if !w.maintenance.Free? && w.maintenance.job.Reserve? then 1 else 0) == start.slots
  {
    StartInv(start);
    RunKeepsInv(start, events);
    ConstantsOverRun(start, events);
  }

  /** The overflow check at commit never fires. */
  lemma CommitNeverOverflows(start: World, events: seq<Event>)
    requires Start(start) && Runs(start, events)
    ensures var w := Run(start, events);
      w.maintenance.Pruned? && w.maintenance.job.Reserve? ==>
        w.reservedBytes + w.maintenance.job.requested <= start.quota <= U64_MAX
  {
    StartInv(start);
    RunKeepsInv(start, events);
    ConstantsOverRun(start, events);
    if Run(start, events).maintenance.Pruned? && Run(start, events).maintenance.job.Reserve? {
      LeasesWithinSnapshot(Run(start, events));
    }
  }

  /** The file that the reservation of `t` produced is at `p`, and the reservation has not been dropped. */
  ghost predicate HeldBy(w: World, p: Path, t: Path) {
    t in w.leases && p in w.files && w.files[p].writer == Some(t)
  }

  /**
   * A file being written under a live reservation is never evicted: what a live reservation produced can be evicted
   * only once it is published.
   */
  lemma EvictionSparesUnpublishedFiles(start: World, events: seq<Event>)
    requires Start(start) && Runs(start, events)
    ensures var w := Run(start, events);
      Enabled(w, RemoveOldest) ==>
        var p := w.maintenance.entries[0].path;
        p !in w.leases && forall t | HeldBy(w, p, t) :: w.leases[t].published
  {
    EntriesUnprotectedOverRun(start, events);
    StartInv(start);
    RunKeepsInv(start, events);
    var w := Run(start, events);
    if Enabled(w, RemoveOldest) && w.maintenance.entries[0].path in w.files {
      var p := w.maintenance.entries[0].path;
      assert FileOk(w, p, w.files[p]);
    }
  }

  ghost predicate EntriesUnprotected(w: World) {
    match w.maintenance
    case Collecting(job, _, _, found) => forall i | 0 <= i < |found| :: found[i].path !in job.Protected()
    case Pruning(job, _, entries, _) => forall i | 0 <= i < |entries| :: entries[i].path !in job.Protected()
    case _ => true
  }

  lemma EntriesUnprotectedStep(w: World, e: Event)
    requires EntriesUnprotected(w) && Enabled(w, e)
    ensures EntriesUnprotected(Apply(w, e))
  {
    if e.EndCollect? {
      var found := w.maintenance.found;
      OldestFirstSorts(found);
      var entries := OldestFirst(found);
      forall i | 0 <= i < |entries|
        ensures entries[i].path !in w.maintenance.job.Protected()
      {
        assert entries[i] in multiset(entries);
        assert entries[i] in found;
      }
    }
  }

  lemma {:induction false} EntriesUnprotectedOverRun(w: World, events: seq<Event>)
    requires EntriesUnprotected(w) && Runs(w, events)
    ensures EntriesUnprotected(Run(w, events))
    decreases |events|
  {
    if events != [] {
      EntriesUnprotectedStep(w, events[0]);
      EntriesUnprotectedOverRun(Apply(w, events[0]), events[1..]);
    }
  }
}
