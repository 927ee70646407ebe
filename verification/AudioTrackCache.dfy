/** The coordinator that admits remuxes and reserves cache space for their output. */
module AudioTrackCache {
  import opened Wrappers
  import opened Sums
  import opened AudioTrackPruning
  import opened AudioTrackRuns
  import Quota = AudioTrackQuota

  const GIBIBYTE: nat := 1024 * 1024 * 1024
  const REMUX_OVERHEAD_ALLOWANCE_BYTES: nat := 256 * 1024 * 1024
  const ARTIFACT_MAX_BYTES: nat := 128 * GIBIBYTE
  const TOTAL_MAX_BYTES: nat := 256 * GIBIBYTE

  datatype ReserveError = InvalidInput | Exhausted | DiskOverflow | VolumeFull | PruneFailed(error: PruneError)

  /** What the holder of granted space gives back when it is dropped. */
  datatype Reservation = Reservation(temporaryPath: Path, reservedBytes: nat)

  /** The most a remux may publish; sources that cannot stay below the artifact ceiling are refused. */
  function RemuxOutputLimit(sourceSize: nat): Option<nat> {
    var limit := sourceSize + REMUX_OVERHEAD_ALLOWANCE_BYTES;
    if limit <= U64_MAX && limit <= ARTIFACT_MAX_BYTES then Some(limit) else None
  }

  predicate GeneratedSizeIsComplete(generatedBytes: nat, outputLimit: nat) {
    0 < generatedBytes < outputLimit
  }

  /**
   * Every output that may be published fits an artifact slot and asks for a reservation that the total
   * quota can grant even while another remux of the largest size is running.
   */
  lemma PublishedOutputFits(sourceSize: nat, generatedBytes: nat)
    requires RemuxOutputLimit(sourceSize).Some?
    requires GeneratedSizeIsComplete(generatedBytes, RemuxOutputLimit(sourceSize).value)
    ensures 0 < generatedBytes < ARTIFACT_MAX_BYTES
    ensures 0 < RemuxOutputLimit(sourceSize).value <= TOTAL_MAX_BYTES - ARTIFACT_MAX_BYTES
  {
  }

  /** An output is published exactly when its source leaves room for it and it stays below its own limit. */
  lemma PublishedExactlyWhen(sourceSize: nat, generatedBytes: nat)
    ensures RemuxOutputLimit(sourceSize).Some?
            && GeneratedSizeIsComplete(generatedBytes, RemuxOutputLimit(sourceSize).value) <==>
            && sourceSize + 0x1000_0000 <= 0x20_0000_0000
            && 0 < generatedBytes < sourceSize + 0x1000_0000
  {
  }

  /** What one pruning leaves, in terms of the directory rather than of its listing. */
  lemma PruneSpares(before: map<Path, FileStat>, protectedPaths: set<Path>, order: seq<CacheEntry>, evicted: nat,
                    after: map<Path, FileStat>)
    requires EvictionOrder(before, protectedPaths, order) && evicted <= |order|
    requires after == before - PathsOf(order[..evicted])
    ensures forall p | p in protectedPaths && p in before :: p in after
    ensures Total(UnprotectedSizes(before, protectedPaths)) == SumSizes(order)
    ensures Total(UnprotectedSizes(after, protectedPaths)) == SumSizes(order[evicted..]) <= SumSizes(order)
  {
    assert SumSizes(order) == SumSizes(order[..evicted]) + SumSizes(order[evicted..]) by {
      SumSizesAppend(order[..evicted], order[evicted..]);
      assert order[..evicted] + order[evicted..] == order;
    }
    EvictionOrderTotal(before, protectedPaths, order);
    EvictionRemainder(before, protectedPaths, order, evicted);
    EvictionSparesProtected(before, protectedPaths, order, evicted);
  }

  lemma NothingGoesWhileAllFits(order: seq<CacheEntry>, evicted: nat, limit: nat)
    requires evicted <= |order|
    ensures AboveLimitBefore(order, evicted, limit) && SumSizes(order) <= limit ==> evicted == 0
    ensures evicted == 0 ==> PathsOf(order[..evicted]) == {} && order[evicted..] == order
  {
    assert order[0..] == order;
  }

  /** One pruning in terms of the directory alone, with nobody else at work. */
  method Prune(directory: CacheDirectory, limit: nat, protectedPaths: set<Path>, failing: set<Path>)
    returns (r: Result<nat, PruneError>, ghost order: seq<CacheEntry>, ghost evicted: nat)
    modifies directory`files
    ensures OnlyEvicts(old(directory.files), directory.files, protectedPaths)
    ensures Total(UnprotectedSizes(directory.files, protectedPaths))
         <= old(Total(UnprotectedSizes(directory.files, protectedPaths)))
    ensures r.Ok? && old(Total(UnprotectedSizes(directory.files, protectedPaths))) <= U64_MAX ==>
      r.value == Total(UnprotectedSizes(directory.files, protectedPaths)) <= limit
    // Nothing goes while everything fits.
    ensures old(Total(UnprotectedSizes(directory.files, protectedPaths))) <= limit <= U64_MAX ==>
      r.Ok? && directory.files == old(directory.files)
    ensures EvictionOrder(old(directory.files), protectedPaths, order) && evicted <= |order|
    ensures directory.files == old(directory.files) - PathsOf(order[..evicted])
    ensures SumSizes(order) == old(Total(UnprotectedSizes(directory.files, protectedPaths)))
    ensures SumSizes(order) <= U64_MAX ==>
      && AboveLimitBefore(order, evicted, limit) && (r.Ok? <==> SumSizes(order[evicted..]) <= limit)
      && (r.Ok? ==> r.value == SumSizes(order[evicted..]))
  {
    var outcome: Result<nat, PruneError>, count: nat;
    outcome, count, order := directory.PruneToLimit(limit, protectedPaths, failing, {});
    evicted := count;
    PruneSpares(old(directory.files), protectedPaths, order, evicted, directory.files);
    assert old(directory.files) - {} == old(directory.files);
    NothingGoesWhileAllFits(order, evicted, limit);
    r := outcome;
  }

  /** Protecting fewer files can only count more bytes. */
  lemma UnprotectedWithinAll(files: map<Path, FileStat>, protectedPaths: set<Path>)
    ensures Total(UnprotectedSizes(files, protectedPaths)) <= Total(UnprotectedSizes(files, {}))
  {
    var some, all := UnprotectedSizes(files, protectedPaths), UnprotectedSizes(files, {});
    TotalInjection(some, all, map p | p in some :: p);
  }

  /** All bytes of the directory. */
  ghost function DiskBytes(files: map<Path, FileStat>): nat {
    Total(UnprotectedSizes(files, {}))
  }

  lemma FewerFilesFewerBytes(before: map<Path, FileStat>, after: map<Path, FileStat>, protectedPaths: set<Path>)
    requires OnlyEvicts(before, after, protectedPaths)
    ensures DiskBytes(after) <= DiskBytes(before)
  {
    var some, all := UnprotectedSizes(after, {}), UnprotectedSizes(before, {});
    TotalInjection(some, all, map p | p in some :: p);
  }

  /** Only files have gone, down to `files`, and the same job is still under way. */
  ghost predicate PrunedTo(w: Quota.World, after: Quota.World, files: map<Path, FileStat>) {
    && after == w.(files := after.files, maintenance := after.maintenance)
    && Stats(after.files) == files && after.files.Keys <= w.files.Keys
    && !w.maintenance.Free? && !after.maintenance.Free? && after.maintenance.job == w.maintenance.job
  }

  /** One pruning on the machine: the same directory, and done exactly when the pruning succeeds. */
  lemma PruneOnMachine(w: Quota.World, before: map<Path, FileStat>, order: seq<CacheEntry>, n: nat)
    returns (events: seq<Quota.Event>)
    requires Stats(w.files) == before && w.maintenance.Collecting? && w.maintenance.found == []
    requires w.maintenance.unseen == w.files.Keys - w.maintenance.job.Protected()
    requires EvictionOrder(before, w.maintenance.job.Protected(), order) && SumSizes(order) <= U64_MAX
    requires n <= |order| && AboveLimitBefore(order, n, w.maintenance.limit)
    ensures Quota.Runs(w, events) && PrunedTo(w, Quota.Run(w, events), before - PathsOf(order[..n]))
    ensures var m := Quota.Run(w, events).maintenance;
      && (m.Pruned? <==> SumSizes(order[n..]) <= w.maintenance.limit)
      && (m.Pruned? ==> m.retained == SumSizes(order[n..]))
  {
    events := PruningIsARun(w, order, n);
    StatsOfRest(w.files, PathsOf(order[..n]));
  }

  /** A second pruning for the volume, from what the first one left. */
  lemma PruneAgainOnMachine(w: Quota.World, before: map<Path, FileStat>, order: seq<CacheEntry>, n: nat,
                            bytesToFree: nat)
    returns (events: seq<Quota.Event>)
    requires Stats(w.files) == before && w.maintenance.Pruned? && w.maintenance.job.Reserve?
    requires EvictionOrder(before, w.maintenance.job.Protected(), order) && SumSizes(order) <= U64_MAX
    requires n <= |order| && AboveLimitBefore(order, n, SaturatingSub(w.maintenance.retained, bytesToFree))
    ensures Quota.Runs(w, events) && PrunedTo(w, Quota.Run(w, events), before - PathsOf(order[..n]))
    ensures Quota.Run(w, events).maintenance.Pruned? <==>
            SumSizes(order[n..]) <= SaturatingSub(w.maintenance.retained, bytesToFree)
  {
    var begin := Quota.BeginVolumePrune(bytesToFree);
    OneStep(w, begin);
    var pruning := PruneOnMachine(Quota.Apply(w, begin), before, order, n);
    RunsJoin(w, [begin], pruning);
    events := [begin] + pruning;
  }

  lemma ThenPruneAgain(w: Quota.World, events: seq<Quota.Event>, again: seq<Quota.Event>, left: map<Path, FileStat>,
                       files: map<Path, FileStat>)
    requires Quota.Runs(w, events) && PrunedTo(w, Quota.Run(w, events), left)
    requires Quota.Runs(Quota.Run(w, events), again)
    requires PrunedTo(Quota.Run(w, events), Quota.Run(Quota.Run(w, events), again), files)
    ensures Quota.Runs(w, events + again) && PrunedTo(w, Quota.Run(w, events + again), files)
    ensures Quota.Run(w, events + again) == Quota.Run(Quota.Run(w, events), again)
  {
    RunsJoin(w, events, again);
  }

  lemma InitializeOnMachine(w: Quota.World, before: map<Path, FileStat>, order: seq<CacheEntry>, n: nat, ok: bool)
    returns (events: seq<Quota.Event>)
    requires w.maintenance.Free? && !w.initialized && Stats(w.files) == before
    requires EvictionOrder(before, {}, order) && SumSizes(order) <= U64_MAX
    requires n <= |order| && AboveLimitBefore(order, n, w.quota) && (ok <==> SumSizes(order[n..]) <= w.quota)
    ensures Quota.Runs(w, events)
    ensures var after := Quota.Run(w, events);
      && after == w.(files := after.files, initialized := ok) && after.files.Keys <= w.files.Keys
      && Stats(after.files) == before - PathsOf(order[..n])
  {
    OneStep(w, Quota.BeginInitialize);
    var pruning := PruneOnMachine(Quota.Apply(w, Quota.BeginInitialize), before, order, n);
    RunsJoin(w, [Quota.BeginInitialize], pruning);
    var last := if ok then Quota.Commit else Quota.Abort;
    NextStep(w, [Quota.BeginInitialize] + pruning, last);
    events := [Quota.BeginInitialize] + pruning + [last];
  }

  /** What a reservation that was given room, or refused it, makes of the machine. */
  ghost function Reserved(w: Quota.World, files: map<Path, Quota.CacheFile>, t: Path, requested: nat,
                          ok: bool): Quota.World
    requires w.admitted > 0
  {
    if ok then
      w.(files := files, admitted := w.admitted - 1, reservedBytes := w.reservedBytes + requested,
         activeTemporaryPaths := w.activeTemporaryPaths + {t},
         leases := w.leases[t := Quota.Lease(requested, false)], outputs := w.outputs[t := t])
    else w.(files := files, admitted := w.admitted - 1, freeSlots := w.freeSlots + 1)
  }

  lemma ReserveOnMachine(w: Quota.World, t: Path, requested: nat, pruning: seq<Quota.Event>, files: map<Path, FileStat>,
                         ok: bool)
    returns (events: seq<Quota.Event>)
    requires Quota.Enabled(w, Quota.BeginReserve(t, requested)) && t !in w.outputs && t !in w.files
        && w.quota <= U64_MAX
    requires var w1 := Quota.Apply(w, Quota.BeginReserve(t, requested));
      && Quota.Runs(w1, pruning) && PrunedTo(w1, Quota.Run(w1, pruning), files)
      && (ok ==> Quota.Run(w1, pruning).maintenance.Pruned?)
    ensures Quota.Runs(w, events)
    ensures var after := Quota.Run(w, events);
      after == Reserved(w, after.files, t, requested, ok) && Stats(after.files) == files
  {
    var begin := Quota.BeginReserve(t, requested);
    OneStep(w, begin);
    RunsJoin(w, [begin], pruning);
    var last := if ok then Quota.Commit else Quota.Abort;
    NextStep(w, [begin] + pruning, last);
    events := [begin] + pruning + [last];
  }

  ghost predicate OnlyEvicts(before: map<Path, FileStat>, after: map<Path, FileStat>, protectedPaths: set<Path>) {
    && (forall p | p in after :: p in before && after[p] == before[p])
    && (forall p | p in before && p in protectedPaths :: p in after)
  }

  /** The machine is about to list an undisturbed directory that looks like `files`. */
  ghost predicate ReadyToCollect(w: Quota.World, files: map<Path, FileStat>, active: set<Path>, limit: nat) {
    && Stats(w.files) == files
    && w.maintenance.Collecting? && w.maintenance.found == [] && w.maintenance.limit == limit
    && w.maintenance.job.Protected() == active
    && w.maintenance.unseen == w.files.Keys - active
  }

  lemma PruneFromReady(w: Quota.World, before: map<Path, FileStat>, active: set<Path>, limit: nat,
                       order: seq<CacheEntry>, n: nat, after: map<Path, FileStat>)
    returns (events: seq<Quota.Event>)
    requires ReadyToCollect(w, before, active, limit) && EvictionOrder(before, active, order) && n <= |order|
    requires SumSizes(order) <= U64_MAX && AboveLimitBefore(order, n, limit) && after == before - PathsOf(order[..n])
    ensures Quota.Runs(w, events) && PrunedTo(w, Quota.Run(w, events), after)
    ensures var m := Quota.Run(w, events).maintenance;
      && (m.Pruned? <==> SumSizes(order[n..]) <= limit)
      && (m.Pruned? ==> m.retained == SumSizes(order[n..]))
  {
    events := PruneOnMachine(w, before, order, n);
  }

  /** A pruning, with the run of the machine it is when somebody keeps track of one. */
  method PruneTracked(directory: CacheDirectory, limit: nat, active: set<Path>, failing: set<Path>,
                      ghost w: Quota.World, ghost tracked: bool)
    returns (r: Result<nat, PruneError>, ghost events: seq<Quota.Event>)
    requires tracked ==> ReadyToCollect(w, directory.files, active, limit) && DiskBytes(directory.files) <= U64_MAX
    modifies directory`files
    ensures OnlyEvicts(old(directory.files), directory.files, active)
    ensures Total(UnprotectedSizes(directory.files, active)) <= old(Total(UnprotectedSizes(directory.files, active)))
    ensures r.Ok? && old(Total(UnprotectedSizes(directory.files, active))) <= U64_MAX ==>
      r.value == Total(UnprotectedSizes(directory.files, active)) <= limit
    ensures old(Total(UnprotectedSizes(directory.files, active))) <= limit <= U64_MAX ==>
      r.Ok? && directory.files == old(directory.files)
    ensures tracked ==>
      && Quota.Runs(w, events) && PrunedTo(w, Quota.Run(w, events), directory.files)
      && (r.Ok? <==> Quota.Run(w, events).maintenance.Pruned?)
      && (r.Ok? ==> Quota.Run(w, events).maintenance.retained == r.value)
  {
    events := [];
    UnprotectedWithinAll(directory.files, active);
    ghost var order: seq<CacheEntry>, evicted: nat;
    r, order, evicted := Prune(directory, limit, active, failing);
    if tracked {
      events := PruneFromReady(w, old(directory.files), active, limit, order, evicted, directory.files);
    }
  }

  method PruneAgainTracked(directory: CacheDirectory, retained: nat, bytesToFree: nat, active: set<Path>,
                           failing: set<Path>, ghost w: Quota.World, ghost tracked: bool)
    returns (r: Result<nat, PruneError>, ghost events: seq<Quota.Event>)
    requires tracked ==>
      && Stats(w.files) == directory.files && DiskBytes(directory.files) <= U64_MAX
      && w.maintenance.Pruned? && w.maintenance.job.Reserve?
      && w.maintenance.job.Protected() == active && w.maintenance.retained == retained
    modifies directory`files
    ensures OnlyEvicts(old(directory.files), directory.files, active)
    ensures r.Ok? && old(Total(UnprotectedSizes(directory.files, active))) <= U64_MAX ==>
      Total(UnprotectedSizes(directory.files, active)) <= SaturatingSub(retained, bytesToFree)
    ensures tracked ==>
      && Quota.Runs(w, events) && PrunedTo(w, Quota.Run(w, events), directory.files)
      && (r.Ok? <==> Quota.Run(w, events).maintenance.Pruned?)
  {
    events := [];
    UnprotectedWithinAll(directory.files, active);
    ghost var order: seq<CacheEntry>, evicted: nat;
    r, order, evicted := Prune(directory, SaturatingSub(retained, bytesToFree), active, failing);
    if tracked {
      events := PruneAgainOnMachine(w, old(directory.files), order, evicted, bytesToFree);
    }
  }

  lemma BytesOfReserved(leases: map<Path, Quota.Lease>, t: Path, requested: nat)
    ensures Quota.Bytes(leases[t := Quota.Lease(requested, false)]) == Quota.Bytes(leases)[t := requested]
  {
  }

  lemma BytesOfReleased(leases: map<Path, Quota.Lease>, t: Path)
    requires t in Quota.Bytes(leases)
    ensures t in leases && leases[t].bytes == Quota.Bytes(leases)[t]
    ensures Quota.Bytes(leases - {t}) == Quota.Bytes(leases) - {t}
  {
  }

  class AudioTrackCacheCoordinator {
    const quota: nat
    const directory: CacheDirectory
    var initialized: bool
    var freeSlots: nat
    var reservedBytes: nat
    var activeTemporaryPaths: set<Path>
    ghost var leases: map<Path, nat>

    ghost predicate Valid()
      reads this
    {
      && quota <= U64_MAX
      && reservedBytes == Total(leases) <= quota
      && activeTemporaryPaths == leases.Keys
    }

    /** Bytes of the files no reservation protects. */
    ghost function Retained(): nat
      reads this, directory
    {
      Total(UnprotectedSizes(directory.files, activeTemporaryPaths))
    }

    /** The quota and the volume have room for a request beside all files and reservations there are. */
    ghost predicate Fits(requested: nat, headroom: nat, available: nat)
      reads this, directory
    {
      && Retained() + reservedBytes + requested <= quota
      && headroom + reservedBytes + requested <= available && headroom + reservedBytes + requested <= U64_MAX
    }

    constructor (quota: nat, slots: nat, directory: CacheDirectory)
      requires quota <= U64_MAX
      ensures Valid() && this.quota == quota && this.directory == directory
      ensures !initialized && leases == map[] && freeSlots == if slots == 0 then 1 else slots
    {
      this.quota, this.directory := quota, directory;
      initialized, reservedBytes, activeTemporaryPaths, leases := false, 0, {}, map[];
      freeSlots := if slots == 0 then 1 else slots;
    }

    /** The machine in the same state, with nobody maintaining the cache. */
    ghost predicate Models(w: Quota.World)
      reads this, directory
    {
      && w.quota == quota && w.initialized == initialized && w.freeSlots == freeSlots
      && w.reservedBytes == reservedBytes && w.activeTemporaryPaths == activeTemporaryPaths
      && Quota.Bytes(w.leases) == leases && Stats(w.files) == directory.files && w.maintenance.Free?
    }

    method TryAdmit(ghost w: Quota.World) returns (admitted: bool)
      requires Valid() && Models(w)
      modifies this`freeSlots
      ensures Valid() && admitted == (old(freeSlots) > 0)
      ensures freeSlots == if admitted then old(freeSlots) - 1 else old(freeSlots)
      ensures if admitted then Quota.Enabled(w, Quota.Admit) && Models(Quota.Apply(w, Quota.Admit)) else Models(w)
    {
      admitted := freeSlots > 0;
      if admitted {
        freeSlots := freeSlots - 1;
      }
    }

    method EnsureInitialized(failing: set<Path>, ghost w: Quota.World, ghost tracked: bool)
      returns (r: Result<(), PruneError>, ghost events: seq<Quota.Event>)
      requires Valid() && (!initialized ==> leases == map[])
      requires tracked ==> Models(w) && DiskBytes(directory.files) <= U64_MAX
      modifies this`initialized, directory`files
      ensures Valid() && r.Ok? == initialized && (old(initialized) ==> r.Ok? && directory.files == old(directory.files))
      ensures OnlyEvicts(old(directory.files), directory.files, {})
      ensures r.Ok? && !old(initialized) && old(Retained()) <= U64_MAX ==> Retained() <= quota
      ensures !old(initialized) && old(Retained()) <= quota ==> r.Ok? && directory.files == old(directory.files)
      ensures tracked ==>
        && Quota.Runs(w, events) && Models(Quota.Run(w, events))
        && var after := Quota.Run(w, events);
           after == w.(files := after.files, initialized := initialized) && after.files.Keys <= w.files.Keys
    {
      events := [];
      if initialized {
        return Ok(()), [];
      }
      assert activeTemporaryPaths == {};
      var pruned, order, evicted := Prune(directory, quota, {}, failing);
      if tracked {
        events := InitializeOnMachine(w, old(directory.files), order, evicted, pruned.Ok?);
      }
      if pruned.Err? {
        return Err(pruned.error), events;
      }
      initialized := true;
      r := Ok(());
    }

    /**
     * Two readings of the free space of the volume are taken as parameters.
     * `admission` has been consumed by the caller; it is kept by the reservation or given back.
     * A call that is tracked, alone at work and with a temporary path nobody used before, is a run of the machine `w`
     * in every outcome.
     */
    method Reserve(temporaryPath: Path, requested: nat, headroom: nat, available: nat, availableAfter: nat,
                   failing: set<Path>, ghost w: Quota.World, ghost tracked: bool)
      returns (r: Result<Reservation, ReserveError>, ghost events: seq<Quota.Event>)
      requires Valid() && (!initialized ==> leases == map[]) && temporaryPath !in activeTemporaryPaths
      requires tracked ==> Models(w) && w.admitted > 0 && temporaryPath !in w.outputs && temporaryPath !in w.files
      requires tracked ==> DiskBytes(directory.files) <= U64_MAX
      modifies this, directory`files
      ensures Valid()
      ensures r.Ok? ==>
        && r.value == Reservation(temporaryPath, requested)
        && leases == old(leases)[temporaryPath := requested]
        && reservedBytes == old(reservedBytes) + requested
        && freeSlots == old(freeSlots)
      ensures r.Err? ==> leases == old(leases) && freeSlots == old(freeSlots) + 1
      ensures r == Err(InvalidInput) <==> requested == 0 || requested > quota
      ensures r == Err(InvalidInput) ==> initialized == old(initialized) && directory.files == old(directory.files)
      ensures r == Err(Exhausted) ==> quota < old(reservedBytes) + requested
      ensures r.Ok? ==> old(reservedBytes) + requested <= quota
      // Protected files and the contents of all others are untouched.
      ensures OnlyEvicts(old(directory.files), directory.files, old(activeTemporaryPaths))
      ensures r.Ok? && old(Retained()) <= U64_MAX ==>
        old(reservedBytes) + requested + Total(UnprotectedSizes(directory.files, old(activeTemporaryPaths))) <= quota
      ensures r.Ok? ==> headroom + reservedBytes <= available || headroom + reservedBytes <= availableAfter
      // What fits is granted, and then no file is given up for it.
      ensures requested > 0 && old(initialized && Fits(requested, headroom, available)) ==>
        r.Ok? && directory.files == old(directory.files)
      ensures tracked ==>
        && Quota.Runs(w, events) && Models(Quota.Run(w, events))
        && Quota.Run(w, events).admitted == w.admitted - 1
        && Quota.Run(w, events).leases ==
           if r.Ok? then w.leases[temporaryPath := Quota.Lease(requested, false)] else w.leases
    {
      events := [];
      if requested == 0 || requested > quota {
        if tracked {
          OneStep(w, Quota.DropAdmission);
          events := [Quota.DropAdmission];
        }
        freeSlots := freeSlots + 1;
        return Err(InvalidInput), events;
      }
      var ready, initializing := EnsureInitialized(failing, w, tracked);
      if ready.Err? {
        if tracked {
          NextStep(w, initializing, Quota.DropAdmission);
          events := initializing + [Quota.DropAdmission];
        }
        freeSlots := freeSlots + 1;
        return Err(PruneFailed(ready.error)), events;
      }
      FewerFilesFewerBytes(old(directory.files), directory.files, {});
      ghost var reserving: seq<Quota.Event>;
      r, reserving := ReserveSpace(temporaryPath, requested, headroom, available, availableAfter, failing,
                                   if tracked then Quota.Run(w, initializing) else w, tracked);
      if tracked {
        RunsJoin(w, initializing, reserving);
        events := initializing + reserving;
      }
    }

    /** The part of a reservation that finds the cache initialized. */
    method ReserveSpace(temporaryPath: Path, requested: nat, headroom: nat, available: nat, availableAfter: nat,
                        failing: set<Path>, ghost w: Quota.World, ghost tracked: bool)
      returns (r: Result<Reservation, ReserveError>, ghost events: seq<Quota.Event>)
      requires Valid() && initialized && 0 < requested <= quota && temporaryPath !in activeTemporaryPaths
      requires tracked ==> Models(w) && w.admitted > 0 && temporaryPath !in w.outputs && temporaryPath !in w.files
      requires tracked ==> DiskBytes(directory.files) <= U64_MAX
      modifies this, directory`files
      ensures Valid() && initialized
      ensures r.Ok? ==>
        && r.value == Reservation(temporaryPath, requested)
        && leases == old(leases)[temporaryPath := requested]
        && reservedBytes == old(reservedBytes) + requested <= quota
        && freeSlots == old(freeSlots)
      ensures r.Err? ==> leases == old(leases) && freeSlots == old(freeSlots) + 1
      ensures r != Err(InvalidInput) && (r == Err(Exhausted) ==> quota < old(reservedBytes) + requested)
      ensures OnlyEvicts(old(directory.files), directory.files, old(activeTemporaryPaths))
      ensures r.Ok? && old(Retained()) <= U64_MAX ==>
        old(reservedBytes) + requested + Total(UnprotectedSizes(directory.files, old(activeTemporaryPaths))) <= quota
      ensures r.Ok? ==> headroom + reservedBytes <= available || headroom + reservedBytes <= availableAfter
      ensures old(Fits(requested, headroom, available)) ==> r.Ok? && directory.files == old(directory.files)
      ensures tracked ==>
        && Quota.Runs(w, events) && Models(Quota.Run(w, events))
        && Quota.Run(w, events).admitted == w.admitted - 1
        && Quota.Run(w, events).leases ==
           if r.Ok? then w.leases[temporaryPath := Quota.Lease(requested, false)] else w.leases
    {
      events := [];
      var reserved, active := reservedBytes, activeTemporaryPaths;
      if quota < reserved + requested {
        if tracked {
          OneStep(w, Quota.DropAdmission);
          events := [Quota.DropAdmission];
        }
        freeSlots := freeSlots + 1;
        return Err(Exhausted), events;
      }
      ghost var collecting := if tracked then Quota.Apply(w, Quota.BeginReserve(temporaryPath, requested)) else w;
      var room, pruning :=
        MakeRoom(reserved, active, requested, headroom, available, availableAfter, failing, collecting, tracked);
      if tracked {
        events := ReserveOnMachine(w, temporaryPath, requested, pruning, directory.files, room.Ok?);
        BytesOfReserved(w.leases, temporaryPath, requested);
      }
      if room.Err? {
        freeSlots := freeSlots + 1;
        return Err(room.error), events;
      }
      TotalAdd(leases, temporaryPath, requested);
      reservedBytes := reservedBytes + requested;
      activeTemporaryPaths := activeTemporaryPaths + {temporaryPath};
      leases := leases[temporaryPath := requested];
      r := Ok(Reservation(temporaryPath, requested));
    }

    /**
     * The quota pruning of a reservation, followed by the pruning that the free space of the volume asks for: as many
     * bytes as are missing, out of what the first pruning left.
     */
    method MakeRoom(reserved: nat, active: set<Path>, requested: nat, headroom: nat, available: nat,
                    availableAfter: nat, failing: set<Path>, ghost w: Quota.World, ghost tracked: bool)
      returns (r: Result<(), ReserveError>, ghost events: seq<Quota.Event>)
      requires reserved + requested <= quota <= U64_MAX
      requires tracked ==> ReadyToCollect(w, directory.files, active, quota - reserved - requested)
                           && w.maintenance.job.Reserve?
      requires tracked ==> DiskBytes(directory.files) <= U64_MAX
      modifies directory`files
      ensures r.Err? ==> !r.error.InvalidInput? && !r.error.Exhausted?
      ensures OnlyEvicts(old(directory.files), directory.files, active)
      ensures r.Ok? && old(Total(UnprotectedSizes(directory.files, active))) <= U64_MAX ==>
        var left, required := Total(UnprotectedSizes(directory.files, active)), headroom + reserved + requested;
        && reserved + requested + left <= quota
        && (available < required ==>
              left == 0 || (left + (required - available) <= quota - reserved - requested
                            && left + (required - available) <= old(Total(UnprotectedSizes(directory.files, active)))))
      ensures r.Ok? ==>
        headroom + reserved + requested <= available || headroom + reserved + requested <= availableAfter
      ensures old(Total(UnprotectedSizes(directory.files, active))) + reserved + requested <= quota
              && headroom + reserved + requested <= available && headroom + reserved + requested <= U64_MAX ==>
        r.Ok? && directory.files == old(directory.files)
      ensures tracked ==>
        && Quota.Runs(w, events) && PrunedTo(w, Quota.Run(w, events), directory.files)
        && (r.Ok? ==> Quota.Run(w, events).maintenance.Pruned?)
    {
      var pruned: Result<nat, PruneError>;
      pruned, events := PruneTracked(directory, quota - reserved - requested, active, failing, w, tracked);
      if pruned.Err? {
        return Err(PruneFailed(pruned.error)), events;
      }
      var required := headroom + reserved + requested;
      if required > U64_MAX {
        return Err(DiskOverflow), events;
      }
      if available >= required {
        return Ok(()), events;
      }
      FewerFilesFewerBytes(old(directory.files), directory.files, active);
      ghost var left := directory.files;
      var again, more := PruneAgainTracked(directory, pruned.value, required - available, active, failing,
                                           if tracked then Quota.Run(w, events) else w, tracked);
      if tracked {
        ThenPruneAgain(w, events, more, left, directory.files);
        events := events + more;
      }
      if again.Err? {
        return Err(PruneFailed(again.error)), events;
      }
      r := if availableAfter < required then Err(VolumeFull) else Ok(());
    }

    method Release(reservation: Reservation, ghost w: Quota.World)
      requires Valid() && reservation.temporaryPath in leases
      requires leases[reservation.temporaryPath] == reservation.reservedBytes
      requires Models(w)
      modifies this
      ensures Valid() && leases == old(leases) - {reservation.temporaryPath}
      ensures reservedBytes == old(reservedBytes) - reservation.reservedBytes
      ensures freeSlots == old(freeSlots) + 1 && initialized == old(initialized)
      ensures var e := Quota.Release(reservation.temporaryPath);
        Quota.Enabled(w, e) && Models(Quota.Apply(w, e))
    {
      TotalRemove(leases, reservation.temporaryPath);
      BytesOfReleased(w.leases, reservation.temporaryPath);
      reservedBytes := SaturatingSub(reservedBytes, reservation.reservedBytes);
      activeTemporaryPaths := activeTemporaryPaths - {reservation.temporaryPath};
      leases := leases - {reservation.temporaryPath};
      freeSlots := freeSlots + 1;
    }
  }
}
