/** Stretches of the audio-track machine: a pruning nobody interrupts, and one that a publication overtakes. */
module AudioTrackRuns {
  import opened AudioTrackPruning
  import opened AudioTrackQuota
  import opened Sums
  import opened Wrappers

  lemma {:induction false} RunsJoin(w: World, a: seq<Event>, b: seq<Event>)
    requires Runs(w, a) && Runs(Run(w, a), b)
    ensures Runs(w, a + b) && Run(w, a + b) == Run(Run(w, a), b)
    decreases |a|
  {
    if a == [] {
      assert a + b == b;
    } else {
      RunsJoin(Apply(w, a[0]), a[1..], b);
      assert (a + b)[0] == a[0] && (a + b)[1..] == a[1..] + b;
    }
  }

  lemma OneStep(w: World, e: Event)
    requires Enabled(w, e)
    ensures Runs(w, [e]) && Run(w, [e]) == Apply(w, e)
  {
    assert [e][1..] == [];
  }

  lemma NextStep(w: World, events: seq<Event>, e: Event)
    requires Runs(w, events) && Enabled(Run(w, events), e)
    ensures Runs(w, events + [e]) && Run(w, events + [e]) == Apply(Run(w, events), e)
  {
    OneStep(Run(w, events), e);
    RunsJoin(w, events, [e]);
  }

  /** The files as a directory shows them. */
  ghost function Stats(files: map<Path, CacheFile>): map<Path, FileStat> {
    map p | p in files :: FileStat(files[p].size, files[p].modified)
  }

  // ---- collecting ----

  /** The order is what a listing of the directory sorts to, whatever order the listing came in. */
  lemma OrderIsSorted(files: map<Path, FileStat>, protectedPaths: set<Path>, order: seq<CacheEntry>)
    requires EvictionOrder(files, protectedPaths, order)
    ensures OldestFirst(order) == order
  {
    ListingSorts(files, protectedPaths, order);
    EvictionOrderUnique(files, protectedPaths, OldestFirst(order), order);
  }

  ghost function Observes(order: seq<CacheEntry>): seq<Event> {
    if order == [] then [] else Observes(order[..|order| - 1]) + [Observe(order[|order| - 1].path)]
  }

  /** A listing is about to be made of an undisturbed directory. */
  ghost predicate StartsCollecting(w: World, order: seq<CacheEntry>) {
    var m := w.maintenance;
    && m.Collecting? && m.found == [] && m.unseen == w.files.Keys - m.job.Protected()
    && EvictionOrder(Stats(w.files), m.job.Protected(), order)
  }

  /** The first `k` files of the order have been listed. */
  ghost function Observed(w: World, order: seq<CacheEntry>, k: nat): World
    requires k <= |order| && w.maintenance.Collecting?
  {
    var m := w.maintenance;
    w.(maintenance := Collecting(m.job, m.limit, m.unseen - PathsOf(order[..k]), order[..k]))
  }

  lemma ObserveNext(w: World, order: seq<CacheEntry>, k: nat)
    requires StartsCollecting(w, order) && k < |order|
    ensures Enabled(Observed(w, order, k), Observe(order[k].path))
    ensures Apply(Observed(w, order, k), Observe(order[k].path)) == Observed(w, order, k + 1)
  {
    var e, m := order[k], w.maintenance;
    assert e in order && IsEntry(Stats(w.files), m.job.Protected(), e);
    assert order[..k + 1] == order[..k] + [e];
    EvictionStep(order, k);
    assert m.unseen - PathsOf(order[..k + 1]) == m.unseen - PathsOf(order[..k]) - {e.path};
  }

  lemma {:induction false} ObserveRun(w: World, order: seq<CacheEntry>, k: nat)
    requires StartsCollecting(w, order) && k <= |order|
    ensures Runs(w, Observes(order[..k])) && Run(w, Observes(order[..k])) == Observed(w, order, k)
  {
    if k == 0 {
      assert order[..0] == [] && w.maintenance.unseen - PathsOf([]) == w.maintenance.unseen;
    } else {
      ObserveRun(w, order, k - 1);
      ObserveNext(w, order, k - 1);
      assert order[..k][..k - 1] == order[..k - 1];
      NextStep(w, Observes(order[..k - 1]), Observe(order[k - 1].path));
    }
  }

  lemma CollectRun(w: World, order: seq<CacheEntry>)
    requires StartsCollecting(w, order) && SumSizes(order) <= U64_MAX
    ensures Runs(w, Observes(order) + [EndCollect])
    ensures Run(w, Observes(order) + [EndCollect]) ==
            w.(maintenance := Pruning(w.maintenance.job, w.maintenance.limit, order, SumSizes(order)))
  {
    var m := w.maintenance;
    ObserveRun(w, order, |order|);
    assert order[..|order|] == order;
    forall p | p in m.unseen
      ensures p in PathsOf(order)
    {
      assert EntryOf(Stats(w.files), p) in order;
    }
    assert m.unseen - PathsOf(order) == {};
    OrderIsSorted(Stats(w.files), m.job.Protected(), order);
    NextStep(w, Observes(order), EndCollect);
  }

  // ---- removing ----

  ghost function Removals(n: nat): seq<Event> {
    if n == 0 then [] else Removals(n - 1) + [RemoveOldest]
  }

  /** The first `n` files of the order are gone. */
  ghost function Without(w: World, order: seq<CacheEntry>, n: nat): World
    requires n <= |order| && w.maintenance.Pruning?
  {
    var m := w.maintenance;
    w.(files := w.files - PathsOf(order[..n]), maintenance := Pruning(m.job, m.limit, order[n..], SumSizes(order[n..])))
  }

  lemma RemoveNext(w: World, order: seq<CacheEntry>, n: nat)
    requires n < |order| && w.maintenance.Pruning? && SumSizes(order[n..]) > w.maintenance.limit
    ensures Enabled(Without(w, order, n), RemoveOldest)
    ensures Apply(Without(w, order, n), RemoveOldest) == Without(w, order, n + 1)
  {
    EvictionStep(order, n);
    assert order[n..][0] == order[n] && order[n..][1..] == order[n + 1..];
    assert w.files - PathsOf(order[..n + 1]) == w.files - PathsOf(order[..n]) - {order[n].path};
  }

  lemma {:induction false} RemoveRun(w: World, order: seq<CacheEntry>, n: nat)
    requires n <= |order| && w.maintenance.Pruning?
    requires w.maintenance.entries == order && w.maintenance.retained == SumSizes(order)
    requires AboveLimitBefore(order, n, w.maintenance.limit)
    ensures Runs(w, Removals(n)) && Run(w, Removals(n)) == Without(w, order, n)
  {
    if n == 0 {
      assert order[..0] == [] && order[0..] == order && w.files - PathsOf([]) == w.files;
    } else {
      RemoveRun(w, order, n - 1);
      RemoveNext(w, order, n - 1);
      NextStep(w, Removals(n - 1), RemoveOldest);
    }
  }

  /** Listing and removing the first `n` files of the order. */
  ghost function Evicting(order: seq<CacheEntry>, n: nat): seq<Event> {
    (Observes(order) + [EndCollect]) + Removals(n)
  }

  lemma EvictRun(w: World, order: seq<CacheEntry>, n: nat)
    requires StartsCollecting(w, order) && SumSizes(order) <= U64_MAX
    requires n <= |order| && AboveLimitBefore(order, n, w.maintenance.limit)
    ensures Runs(w, Evicting(order, n))
    ensures var m := w.maintenance;
            Run(w, Evicting(order, n)) ==
            w.(files := w.files - PathsOf(order[..n]), maintenance := Pruning(m.job, m.limit, order[n..],
                SumSizes(order[n..])))
  {
    CollectRun(w, order);
    RemoveRun(Run(w, Observes(order) + [EndCollect]), order, n);
    RunsJoin(w, Observes(order) + [EndCollect], Removals(n));
  }

  /** An uninterrupted pruning is a run: it evicts what the order says and ends with what is left. */
  lemma PruneRun(w: World, order: seq<CacheEntry>, n: nat)
    requires StartsCollecting(w, order) && SumSizes(order) <= U64_MAX
    requires n <= |order| && AboveLimitBefore(order, n, w.maintenance.limit)
    requires SumSizes(order[n..]) <= w.maintenance.limit
    ensures Runs(w, Evicting(order, n) + [EndPrune])
    ensures var m := w.maintenance;
            Run(w, Evicting(order, n) + [EndPrune]) ==
            w.(files := w.files - PathsOf(order[..n]), maintenance := Pruned(m.job, m.limit, SumSizes(order[n..])))
  {
    EvictRun(w, order, n);
    NextStep(w, Evicting(order, n), EndPrune);
  }

  /** A pruning with nobody else at work is a run, also when it stops at a file that cannot be removed. */
  lemma PruningIsARun(w: World, order: seq<CacheEntry>, n: nat) returns (events: seq<Event>)
    requires StartsCollecting(w, order) && SumSizes(order) <= U64_MAX
    requires n <= |order| && AboveLimitBefore(order, n, w.maintenance.limit)
    ensures Runs(w, events)
    ensures var m, left := w.maintenance, SumSizes(order[n..]);
            Run(w, events) ==
            w.(files := w.files - PathsOf(order[..n]),
               maintenance := if left <= m.limit then Pruned(m.job, m.limit, left)
                              else Pruning(m.job, m.limit, order[n..], left))
  {
    events := Evicting(order, n);
    EvictRun(w, order, n);
    if SumSizes(order[n..]) <= w.maintenance.limit {
      PruneRun(w, order, n);
      events := events + [EndPrune];
    }
  }

  lemma StatsOfRest(files: map<Path, CacheFile>, gone: set<Path>)
    ensures Stats(files - gone) == Stats(files) - gone
  {
  }

  // ---- nothing is evicted without need ----

  /** The step neither starts a listing nor ends the maintenance. */
  ghost predicate KeepsPruning(e: Event) {
    !e.BeginInitialize? && !e.BeginReserve? && !e.BeginVolumePrune? && !e.Commit? && !e.Abort?
  }

  lemma {:induction false} LimitOverRun(w: World, events: seq<Event>)
    requires Runs(w, events) && !w.maintenance.Free?
    requires forall i | 0 <= i < |events| :: KeepsPruning(events[i])
    ensures var m := Run(w, events).maintenance;
            !m.Free? && m.job == w.maintenance.job && m.limit == w.maintenance.limit
    decreases |events|
  {
    if events != [] {
      assert KeepsPruning(events[0]);
      LimitOverRun(Apply(w, events[0]), events[1..]);
    }
  }

  lemma RetainedOverRun(w: World, events: seq<Event>)
    requires Inv(w) && Runs(w, events)
    ensures var m := Run(w, events).maintenance;
            m.Pruning? ==> m.retained == SumSizes(m.entries)
  {
    RunKeepsInv(w, events);
  }

  /** A reservation gives a listed file up only while what it listed does not fit beside all reservations. */
  lemma ReservationEvictsOnlyForQuota(w: World, t: Path, requested: nat, events: seq<Event>)
    requires Inv(w) && Enabled(w, BeginReserve(t, requested))
    requires Runs(Apply(w, BeginReserve(t, requested)), events)
    requires forall i | 0 <= i < |events| :: KeepsPruning(events[i])
    requires Enabled(Run(Apply(w, BeginReserve(t, requested)), events), RemoveOldest)
    ensures var m := Run(Apply(w, BeginReserve(t, requested)), events).maintenance;
            SumSizes(m.entries) + w.reservedBytes + requested > w.quota
  {
    StepKeepsInv(w, BeginReserve(t, requested));
    LimitOverRun(Apply(w, BeginReserve(t, requested)), events);
    RetainedOverRun(Apply(w, BeginReserve(t, requested)), events);
  }

  /** At the start, only while the listed files alone exceed the quota. */
  lemma InitializationEvictsOnlyForQuota(w: World, events: seq<Event>)
    requires Inv(w) && Enabled(w, BeginInitialize) && Runs(Apply(w, BeginInitialize), events)
    requires forall i | 0 <= i < |events| :: KeepsPruning(events[i])
    requires Enabled(Run(Apply(w, BeginInitialize), events), RemoveOldest)
    ensures SumSizes(Run(Apply(w, BeginInitialize), events).maintenance.entries) > w.quota
  {
    StepKeepsInv(w, BeginInitialize);
    LimitOverRun(Apply(w, BeginInitialize), events);
    RetainedOverRun(Apply(w, BeginInitialize), events);
  }

  /** For the volume, only while what is left exceeds what was retained by less than the bytes to free. */
  lemma VolumeEvictsOnlyWhatIsMissing(w: World, bytesToFree: nat, events: seq<Event>)
    requires Inv(w) && Enabled(w, BeginVolumePrune(bytesToFree))
    requires Runs(Apply(w, BeginVolumePrune(bytesToFree)), events)
    requires forall i | 0 <= i < |events| :: KeepsPruning(events[i])
    requires Enabled(Run(Apply(w, BeginVolumePrune(bytesToFree)), events), RemoveOldest)
    ensures SumSizes(Run(Apply(w, BeginVolumePrune(bytesToFree)), events).maintenance.entries) + bytesToFree
          > w.maintenance.retained
  {
    StepKeepsInv(w, BeginVolumePrune(bytesToFree));
    LimitOverRun(Apply(w, BeginVolumePrune(bytesToFree)), events);
    RetainedOverRun(Apply(w, BeginVolumePrune(bytesToFree)), events);
  }

  /** And when it is done, as many bytes are gone as were missing, or there is nothing left to remove. */
  lemma VolumePruningFreesWhatIsMissing(w: World, bytesToFree: nat, events: seq<Event>)
    requires Inv(w) && Enabled(w, BeginVolumePrune(bytesToFree))
    requires Runs(Apply(w, BeginVolumePrune(bytesToFree)), events)
    requires forall i | 0 <= i < |events| :: KeepsPruning(events[i])
    requires Run(Apply(w, BeginVolumePrune(bytesToFree)), events).maintenance.Pruned?
    ensures var left := Run(Apply(w, BeginVolumePrune(bytesToFree)), events).maintenance.retained;
            left == 0 || left + bytesToFree <= w.maintenance.retained
  {
    StepKeepsInv(w, BeginVolumePrune(bytesToFree));
    LimitOverRun(Apply(w, BeginVolumePrune(bytesToFree)), events);
    RunKeepsInv(Apply(w, BeginVolumePrune(bytesToFree)), events);
  }

  // ---- what can come up for eviction ----

  /** The file that the reservation of `t` produced is the next to be removed. */
  ghost predicate ComesUp(w: World, t: Path) {
    Enabled(w, RemoveOldest) && HeldBy(w, w.maintenance.entries[0].path, t)
  }

  ghost predicate PublishesFor(e: Event, t: Path) {
    e.Publish? && e.temporaryPath == t
  }

  ghost predicate NeverPublishes(events: seq<Event>, t: Path) {
    forall i | 0 <= i < |events| :: !PublishesFor(events[i], t)
  }

  /** From here on the file of `t` can come up for eviction without being published first. */
  ghost predicate CanComeUp(w: World, t: Path) {
    exists events :: Runs(w, events) && NeverPublishes(events, t) && ComesUp(Run(w, events), t)
  }

  /** What a reservation under way asks for is not nothing. */
  ghost predicate AsksForSomething(w: World) {
    !w.maintenance.Free? && w.maintenance.job.Reserve? ==> w.maintenance.job.requested > 0
  }

  /** What holds in every state that a run reaches. */
  ghost predicate Reachable(w: World) {
    Inv(w) && EntriesUnprotected(w) && AsksForSomething(w)
  }

  lemma {:induction false} RunKeepsReachable(w: World, events: seq<Event>)
    requires Reachable(w) && Runs(w, events)
    ensures Reachable(Run(w, events))
    decreases |events|
  {
    if events != [] {
      StepKeepsInv(w, events[0]);
      EntriesUnprotectedStep(w, events[0]);
      RunKeepsReachable(Apply(w, events[0]), events[1..]);
    }
  }

  lemma StartIsReachable(w: World)
    requires Start(w)
    ensures Reachable(w)
  {
    StartInv(w);
  }

  // ---- only what is published, and only with room for another reservation ----

  lemma {:induction false} StaysUnpublished(w: World, events: seq<Event>, t: Path)
    requires Runs(w, events) && NeverPublishes(events, t)
    requires t in w.leases ==> !w.leases[t].published
    ensures var after := Run(w, events);
            t in after.leases ==> !after.leases[t].published
    decreases |events|
  {
    if events != [] {
      assert !PublishesFor(events[0], t);
      StaysUnpublished(Apply(w, events[0]), events[1..], t);
    }
  }

  /** While a reservation is held, its amount does not change; names are never used again. */
  lemma {:induction false} AmountOverRun(w: World, events: seq<Event>, t: Path)
    requires Inv(w) && t in w.outputs && Runs(w, events)
    ensures var after := Run(w, events);
            t in after.outputs
            && (t in after.leases ==> t in w.leases && after.leases[t].bytes == w.leases[t].bytes)
    decreases |events|
  {
    if events != [] {
      StepKeepsInv(w, events[0]);
      AmountOverRun(Apply(w, events[0]), events[1..], t);
    }
  }

  lemma PartWithinTotal(leases: map<Path, nat>, t: Path)
    requires t in leases
    ensures leases[t] <= Total(leases)
  {
    TotalRemove(leases, t);
  }

  /** A pruning that finds the file of a live reservation was begun with a second slot and with quota to spare. */
  lemma ComesUpNeedsRoom(w: World, t: Path)
    requires Reachable(w) && ComesUp(w, t)
    ensures w.leases[t].published && w.slots >= 2 && w.leases[t].bytes < w.quota
  {
    var job := w.maintenance.job;
    assert FileOk(w, w.maintenance.entries[0].path, w.files[w.maintenance.entries[0].path]);
    assert SnapshotCovers(w, job) && job.Reserve?;
    PartWithinTotal(job.leases, t);
    assert w.leases.Keys != {};
  }

  // ---- what is published can always go ----

  lemma {:induction false} ListingExists(files: map<Path, FileStat>, protectedPaths: set<Path>)
    returns (listing: seq<CacheEntry>)
    ensures forall i, j | 0 <= i < j < |listing| :: listing[i].path != listing[j].path
    ensures forall e | e in listing :: IsEntry(files, protectedPaths, e)
    ensures forall p | p in files && p !in protectedPaths :: EntryOf(files, p) in listing
    decreases |files|
  {
    listing := [];
    if files != map[] {
      var p :| p in files;
      var rest := files - {p};
      assert files.Keys == rest.Keys + {p} && |files.Keys| == |files| && |rest.Keys| == |rest|;
      listing := ListingExists(rest, protectedPaths);
      forall e | e in listing
        ensures e.path != p && IsEntry(files, protectedPaths, e)
      {
        assert IsEntry(rest, protectedPaths, e);
      }
      forall q | q in files && q !in protectedPaths && q != p
        ensures EntryOf(files, q) in listing
      {
        assert EntryOf(rest, q) in listing;
      }
      if p !in protectedPaths {
        listing := listing + [EntryOf(files, p)];
      }
    }
  }

  lemma OrderExists(files: map<Path, FileStat>, protectedPaths: set<Path>) returns (order: seq<CacheEntry>)
    ensures EvictionOrder(files, protectedPaths, order)
  {
    var listing := ListingExists(files, protectedPaths);
    ListingSorts(files, protectedPaths, listing);
    order := OldestFirst(listing);
  }

  lemma {:induction false} RestAtLeast(order: seq<CacheEntry>, m: nat, n: nat)
    requires m <= n < |order|
    ensures SumSizes(order[m..]) >= order[n].size
    decreases n - m
  {
    EvictionStep(order, m);
    if m < n {
      RestAtLeast(order, m + 1, n);
    }
  }

  lemma OrderWithinQuota(w: World, protectedPaths: set<Path>, order: seq<CacheEntry>)
    requires Inv(w) && w.initialized && EvictionOrder(Stats(w.files), protectedPaths, order)
    ensures SumSizes(order) <= w.quota
  {
    EvictionOrderTotal(Stats(w.files), protectedPaths, order);
    var some, all := UnprotectedSizes(Stats(w.files), protectedPaths), FileSizes(w);
    TotalInjection(some, all, map p | p in some :: p);
    DiskWithinFootprint(w);
  }

  lemma {:induction false} ObservesPublishNothing(order: seq<CacheEntry>, t: Path)
    ensures NeverPublishes(Observes(order), t)
  {
    if order != [] {
      ObservesPublishNothing(order[..|order| - 1], t);
    }
  }

  lemma {:induction false} RemovalsPublishNothing(n: nat, t: Path)
    ensures NeverPublishes(Removals(n), t)
  {
    if n > 0 {
      RemovalsPublishNothing(n - 1, t);
    }
  }

  lemma EvictingPublishesNothing(order: seq<CacheEntry>, n: nat, t: Path)
    ensures NeverPublishes(Evicting(order, n), t)
  {
    ObservesPublishNothing(order, t);
    RemovalsPublishNothing(n, t);
  }

  /** The path of a published file is nobody's temporary path. */
  lemma PublishedIsUnprotected(w: World, p: Path, t: Path)
    requires Inv(w) && HeldBy(w, p, t) && w.leases[t].published
    ensures p !in w.leases
  {
    assert FileOk(w, p, w.files[p]);
  }

  lemma AboveZeroUpTo(order: seq<CacheEntry>, n: nat)
    requires n < |order| && order[n].size > 0
    ensures AboveLimitBefore(order, n, 0) && SumSizes(order[n..]) > 0
  {
    forall m | 0 <= m <= n
      ensures SumSizes(order[m..]) > 0
    {
      RestAtLeast(order, m, n);
    }
  }

  /** A pruning to nothing at all comes to every file that takes room. */
  lemma PruningReaches(w: World, order: seq<CacheEntry>, n: nat)
    requires StartsCollecting(w, order) && w.maintenance.limit == 0 && SumSizes(order) <= U64_MAX
    requires n < |order| && order[n].size > 0
    ensures Runs(w, Evicting(order, n))
    ensures var after, p := Run(w, Evicting(order, n)), order[n].path;
            && Enabled(after, RemoveOldest) && after.maintenance.entries[0].path == p
            && after.leases == w.leases && p in after.files && p in w.files && after.files[p] == w.files[p]
  {
    AboveZeroUpTo(order, n);
    EvictRun(w, order, n);
    assert order[n] in order && IsEntry(Stats(w.files), w.maintenance.job.Protected(), order[n]);
    assert order[n].path !in PathsOf(order[..n]);
  }

  /** Where a listing of the directory puts a file that nobody protects. */
  lemma PlaceInOrder(w: World, p: Path) returns (order: seq<CacheEntry>, n: nat)
    requires Inv(w) && w.initialized && p in w.files && p !in w.leases
    ensures EvictionOrder(Stats(w.files), w.leases.Keys, order) && SumSizes(order) <= w.quota <= U64_MAX
    ensures n < |order| && order[n].path == p && order[n].size == w.files[p].size
  {
    order := OrderExists(Stats(w.files), w.leases.Keys);
    OrderWithinQuota(w, w.leases.Keys, order);
    assert EntryOf(Stats(w.files), p) in order;
    n :| 0 <= n < |order| && order[n] == EntryOf(Stats(w.files), p);
  }

  /**
   * A snapshot protects temporary paths only. So the next reservation, when it asks for all that is left of the quota,
   * comes to the published file of a reservation that is still held.
   */
  lemma NextReservationReachesIt(w: World, p: Path, t: Path, other: Path) returns (events: seq<Event>)
    requires Inv(w) && w.maintenance.Free? && w.admitted > 0 && w.reservedBytes < w.quota
    requires HeldBy(w, p, t) && w.leases[t].published && w.files[p].size > 0
    ensures Runs(w, events) && NeverPublishes(events, t)
    ensures events != [] && events[0] == BeginReserve(other, w.quota - w.reservedBytes)
    ensures var after := Run(w, events);
            ComesUp(after, t) && after.maintenance.entries[0].path == p && after.leases == w.leases
  {
    PublishedIsUnprotected(w, p, t);
    var order, n := PlaceInOrder(w, p);
    var begin := BeginReserve(other, w.quota - w.reservedBytes);
    OneStep(w, begin);
    assert StartsCollecting(Apply(w, begin), order) by {
      assert Apply(w, begin).maintenance.job.Protected() == w.leases.Keys;
    }
    PruningReaches(Apply(w, begin), order, n);
    EvictingPublishesNothing(order, n, t);
    RunsJoin(w, [begin], Evicting(order, n));
    events := [begin] + Evicting(order, n);
  }

  // ---- the exact condition ----

  /** Nothing has happened to the reservation of `t`, or to any file. */
  ghost predicate Undisturbed(w: World, after: World, t: Path) {
    && Inv(after) && t in w.leases && t in after.leases && after.leases[t] == w.leases[t]
    && after.files == w.files && after.maintenance.Free?
    && after.initialized == w.initialized && after.quota == w.quota && after.slots == w.slots
  }

  lemma OneReleases(w: World, t: Path, other: Path)
    requires Inv(w) && t in w.leases && w.maintenance.Free? && other in w.leases && other != t
    ensures Enabled(w, Release(other)) && Undisturbed(w, Apply(w, Release(other)), t)
    ensures |Apply(w, Release(other)).leases| < |w.leases|
  {
    StepKeepsInv(w, Release(other));
    var leases := Apply(w, Release(other)).leases;
    assert w.leases.Keys == leases.Keys + {other};
    assert |w.leases.Keys| == |w.leases| && |leases.Keys| == |leases|;
  }

  /** The others finish: their reservations end one by one, and their files stay behind. */
  lemma {:induction false} OthersRelease(w: World, t: Path) returns (events: seq<Event>)
    requires Inv(w) && t in w.leases && w.maintenance.Free?
    ensures Runs(w, events) && NeverPublishes(events, t)
    ensures Undisturbed(w, Run(w, events), t) && Run(w, events).leases.Keys == {t}
    decreases |w.leases|
  {
    events := [];
    if other :| other in w.leases && other != t {
      OneReleases(w, t, other);
      var more := OthersRelease(Apply(w, Release(other)), t);
      events := [Release(other)] + more;
      assert events[1..] == more;
    }
  }

  /** Whoever prunes gives up. */
  lemma PruningStops(w: World, t: Path) returns (events: seq<Event>)
    requires Inv(w) && t in w.leases
    ensures Runs(w, events) && NeverPublishes(events, t) && Undisturbed(w, Run(w, events), t)
  {
    if w.maintenance.Free? {
      events := [];
    } else {
      OneStep(w, Abort);
      StepKeepsInv(w, Abort);
      events := [Abort];
    }
  }

  lemma OnlyLease(w: World, t: Path)
    requires Inv(w) && w.maintenance.Free? && w.leases.Keys == {t}
    ensures w.reservedBytes == w.leases[t].bytes && w.freeSlots + w.admitted + 1 == w.slots
  {
    TotalRemove(Bytes(w.leases), t);
    assert Bytes(w.leases) - {t} == map[];
    assert |w.leases| == |w.leases.Keys|;
  }

  lemma SomebodyIsAdmitted(w: World, t: Path) returns (events: seq<Event>)
    requires Inv(w) && w.maintenance.Free? && w.leases.Keys == {t} && w.slots >= 2
    ensures Runs(w, events) && NeverPublishes(events, t)
    ensures Undisturbed(w, Run(w, events), t)
    ensures Run(w, events).admitted > 0 && Run(w, events).reservedBytes == w.leases[t].bytes
  {
    OnlyLease(w, t);
    if w.admitted > 0 {
      events := [];
    } else {
      OneStep(w, Admit);
      StepKeepsInv(w, Admit);
      events := [Admit];
    }
  }

  /** With a second slot, the way can be cleared for another reservation beside the one of `t`. */
  lemma RoomForAnother(w: World, t: Path) returns (events: seq<Event>)
    requires Inv(w) && t in w.leases && w.slots >= 2
    ensures Runs(w, events) && NeverPublishes(events, t)
    ensures Undisturbed(w, Run(w, events), t)
    ensures Run(w, events).admitted > 0 && Run(w, events).reservedBytes == w.leases[t].bytes
  {
    var stopping := PruningStops(w, t);
    var releasing := OthersRelease(Run(w, stopping), t);
    RunsJoin(w, stopping, releasing);
    var admitting := SomebodyIsAdmitted(Run(w, stopping + releasing), t);
    RunsJoin(w, stopping + releasing, admitting);
    events := stopping + releasing + admitting;
  }

  const NEXT: Path := ["next.tmp"]

  lemma PublishedCanComeUp(w: World, p: Path, t: Path)
    requires Inv(w) && HeldBy(w, p, t) && w.files[p].size > 0
    requires w.leases[t].published && w.slots >= 2 && w.leases[t].bytes < w.quota
    ensures CanComeUp(w, t)
  {
    var clearing := RoomForAnother(w, t);
    var reaching := NextReservationReachesIt(Run(w, clearing), p, t, NEXT);
    RunsJoin(w, clearing, reaching);
    assert NeverPublishes(clearing + reaching, t);
  }

  lemma ComesUpOnlyWhen(w: World, events: seq<Event>, t: Path)
    requires Reachable(w) && t in w.leases
    requires Runs(w, events) && NeverPublishes(events, t) && ComesUp(Run(w, events), t)
    ensures w.leases[t].published && w.slots >= 2 && w.leases[t].bytes < w.quota
  {
    RunKeepsReachable(w, events);
    ComesUpNeedsRoom(Run(w, events), t);
    ConstantsOverRun(w, events);
    AmountOverRun(w, events, t);
    if !w.leases[t].published {
      StaysUnpublished(w, events, t);
    }
  }

  /**
   * What protects the file of a reservation is not that the reservation is held but that the file is not published:
   * without another publication it can come up for eviction exactly when it is published already, unless no other
   * reservation fits beside it.
   */
  lemma ComesUpForEvictionIff(start: World, before: seq<Event>, p: Path, t: Path)
    requires Start(start) && Runs(start, before)
    requires HeldBy(Run(start, before), p, t) && Run(start, before).files[p].size > 0
    ensures var w := Run(start, before);
            CanComeUp(w, t) <==> w.leases[t].published && w.slots >= 2 && w.leases[t].bytes < w.quota
  {
    var w := Run(start, before);
    StartIsReachable(start);
    RunKeepsReachable(start, before);
    if CanComeUp(w, t) {
      var events :| Runs(w, events) && NeverPublishes(events, t) && ComesUp(Run(w, events), t);
      ComesUpOnlyWhen(w, events, t);
    }
    if w.leases[t].published && w.slots >= 2 && w.leases[t].bytes < w.quota {
      PublishedCanComeUp(w, p, t);
    }
  }

  // ---- a run of it ----

  const FIRST: Path := ["first.tmp"]
  const TRACK: Path := ["track.mka"]

  /** A cache of ten bytes whose first reservation has written its five. */
  ghost function Written(): World {
    World(10, 2, map[FIRST := CacheFile(5, 0, Some(FIRST))], true, 5, {FIRST}, map[FIRST := Lease(5, false)],
          map[FIRST := FIRST], 0, 1, Free)
  }

  const EMPTY: World := World(10, 2, map[], false, 0, {}, map[], map[], 2, 0, Free)

  lemma EmptyOrder(w: World)
    requires w.maintenance.Collecting? && w.maintenance.found == [] && w.maintenance.unseen == {} && w.files == map[]
    ensures StartsCollecting(w, []) && SumSizes([]) == 0
  {
  }

  const NOTHING: seq<CacheEntry> := []

  lemma Opens() returns (events: seq<Event>)
    ensures Runs(EMPTY, events) && Run(EMPTY, events) == EMPTY.(initialized := true, freeSlots := 0, admitted := 2)
  {
    OneStep(EMPTY, BeginInitialize);
    var w := Apply(EMPTY, BeginInitialize);
    EmptyOrder(w);
    PruneRun(w, NOTHING, 0);
    events := Evicting(NOTHING, 0) + [EndPrune];
    assert w.files - PathsOf(NOTHING[..0]) == map[] && NOTHING[0..] == NOTHING;
    RunsJoin(EMPTY, [BeginInitialize], events);
    events := [BeginInitialize] + events;
    NextStep(EMPTY, events, Commit);
    events := events + [Commit];
    NextStep(EMPTY, events, Admit);
    events := events + [Admit];
    NextStep(EMPTY, events, Admit);
    events := events + [Admit];
  }

  lemma Writes() returns (events: seq<Event>)
    ensures Runs(EMPTY, events) && Run(EMPTY, events) == Written()
  {
    var opening := Opens();
    var w0 := Run(EMPTY, opening);
    OneStep(w0, BeginReserve(FIRST, 5));
    var w1 := Apply(w0, BeginReserve(FIRST, 5));
    EmptyOrder(w1);
    PruneRun(w1, NOTHING, 0);
    assert w1.files - PathsOf(NOTHING[..0]) == map[] && NOTHING[0..] == NOTHING;
    var pruning := Evicting(NOTHING, 0) + [EndPrune];
    RunsJoin(w0, [BeginReserve(FIRST, 5)], pruning);
    NextStep(w0, [BeginReserve(FIRST, 5)] + pruning, Commit);
    var reserving := [BeginReserve(FIRST, 5)] + pruning + [Commit];
    NextStep(w0, reserving, Grow(FIRST, 5, 0));
    RunsJoin(EMPTY, opening, reserving + [Grow(FIRST, 5, 0)]);
    events := opening + (reserving + [Grow(FIRST, 5, 0)]);
    assert Run(EMPTY, events) == Written();
  }

  /**
   * From the start of the cache to a file about to be evicted although its reservation is held: it is written,
   * published, and met by the next reservation, whose snapshot knows only the temporary path.
   */
  lemma PublishedFileOfLiveReservationCanBeEvicted() returns (events: seq<Event>)
    ensures Start(EMPTY) && Runs(EMPTY, events)
    ensures var w := Run(EMPTY, events);
            Enabled(w, RemoveOldest) && HeldBy(w, w.maintenance.entries[0].path, FIRST) && w.leases[FIRST].published
  {
    var writing := Writes();
    NextStep(EMPTY, writing, Publish(FIRST, TRACK));
    var publishing := writing + [Publish(FIRST, TRACK)];
    StartInv(EMPTY);
    RunKeepsInv(EMPTY, publishing);
    var evicting := NextReservationReachesIt(Run(EMPTY, publishing), TRACK, FIRST, NEXT);
    RunsJoin(EMPTY, publishing, evicting);
    events := publishing + evicting;
  }
}
