/**
 * The dispatcher that coalesces change notifications and scan progress. One
 * step handles one command or one tick; the outcome of the database reads and
 * the clock are parameters of the step.
 */
module RealtimeDispatcher {
  import opened Wrappers
  import opened RealtimeMessages
  import opened ResourceKeys

  const GUARD_TTL_MILLIS: int := 60_000

  datatype ScanUpdate = ScanUpdate(jobId: int, libraryId: int, phase: Option<string>)

  datatype ScanItem = ScanItem(jobId: int, itemKey: string, itemIndex: int, detail: string)

  datatype ScanJobEvent =
    | Updated(update: ScanUpdate)
    | Checkpoint(update: ScanUpdate)
    | ItemUpdated(item: ScanItem)
    | Finished(update: ScanUpdate)
  {
    function JobId(): int {
      if ItemUpdated? then item.jobId else update.jobId
    }
  }

  datatype Batch = Batch(scanJob: Option<ScanUpdate>, items: map<string, ScanItem>)

  const EMPTY_BATCH: Batch := Batch(None, map[])

  datatype Guard = Guard(sequence: nat, finishedAt: int)

  datatype Output =
    | ScanProgress(jobId: int, update: ScanUpdate, items: map<string, ScanItem>)
    | ScanFinished(jobId: int, update: ScanUpdate, items: map<string, ScanItem>)
    | ResourcesChanged(visibility: Visibility, changes: map<string, int>)
    | SessionInvalidated(visibility: Visibility)

  /** History of the change keys: their arrival and the successful revision queries. */
  datatype KeyEvent = Arrived(key: string) | Queried(keys: set<string>)

  datatype DispatcherState = DispatcherState(
    pendingResources: set<string>,
    pendingContinueWatching: set<string>,
    pendingScans: map<int, Batch>,
    finishedScanJobs: map<int, Guard>,
    log: seq<KeyEvent>,
    published: seq<set<Output>>)   // what each step published

  /** `revisions` is the answer of the revision query, None when it fails. */
  datatype Step =
    | ResourceChanged(key: string)
    | ResourceChangedImmediate(key: string, revisions: Option<map<string, int>>)
    | ScanEvent(sequence: nat, event: ScanJobEvent, now: int)
    | FlushResources(revisions: Option<map<string, int>>)
    | FlushContinueWatching(revisions: Option<map<string, int>>)
    | FlushScans(now: int, jobs: map<int, ScanUpdate>)

  ghost predicate Start(s: DispatcherState) {
    s == DispatcherState({}, {}, map[], map[], [], [])
  }

  function Emit(s: DispatcherState, outputs: set<Output>): DispatcherState {
    s.(published := s.published + [outputs])
  }

  // ---- Change keys ----

  function AddPending(s: DispatcherState, key: string): DispatcherState {
    if IsContinueWatching(key) then s.(pendingContinueWatching := s.pendingContinueWatching + {key})
    else s.(pendingResources := s.pendingResources + {key})
  }

  function AddAllPending(s: DispatcherState, keys: set<string>): DispatcherState {
    s.(pendingContinueWatching := s.pendingContinueWatching + (set k | k in keys && IsContinueWatching(k)),
       pendingResources := s.pendingResources + (set k | k in keys && !IsContinueWatching(k)))
  }

  function ChangesFor(revisions: map<string, int>, visibility: Visibility): map<string, int> {
    map k | k in revisions && VisibilityFor(k) == Some(visibility) :: revisions[k]
  }

  /** One message per audience, with all its changes. */
  function Grouped(revisions: map<string, int>): set<Output> {
    set k | k in revisions && VisibilityFor(k).Some? ::
      ResourcesChanged(VisibilityFor(k).value, ChangesFor(revisions, VisibilityFor(k).value))
  }

  function FlushKeys(s: DispatcherState, keys: set<string>, revisions: Option<map<string, int>>): DispatcherState {
    match revisions
    case None => Emit(AddAllPending(s, keys), {})
    case Some(found) =>
      Emit(s.(log := s.log + [Queried(keys)]), Grouped(map k | k in found && k in keys :: found[k]))
  }

  function ApplyResourceChanged(s: DispatcherState, key: string): DispatcherState {
    if IsRevokedSession(key) then Emit(s, {SessionInvalidated(Session(key))})
    else if SessionUserId(key).Some? then Emit(s, {SessionInvalidated(User(SessionUserId(key).value))})
    else Emit(AddPending(s.(log := s.log + [Arrived(key)]), key), {})
  }

  // ---- Scan events ----

  predicate IsStale(s: DispatcherState, jobId: int, sequence: nat) {
    jobId in s.finishedScanJobs && sequence <= s.finishedScanJobs[jobId].sequence
  }

  function BatchOf(s: DispatcherState, jobId: int): Batch {
    if jobId in s.pendingScans then s.pendingScans[jobId] else EMPTY_BATCH
  }

  function ApplyScanEvent(s: DispatcherState, sequence: nat, event: ScanJobEvent, now: int): DispatcherState {
    var job := event.JobId();
    if IsStale(s, job, sequence) then Emit(s, {})
    else
      match event
      case Updated(update) =>
        Emit(s.(finishedScanJobs := s.finishedScanJobs - {job},
                pendingScans := s.pendingScans[job := BatchOf(s, job).(scanJob := Some(update))]), {})
      case Checkpoint(update) =>
        Emit(s.(finishedScanJobs := s.finishedScanJobs - {job}, pendingScans := s.pendingScans - {job}),
             {ScanProgress(job, update, BatchOf(s, job).items)})
      case ItemUpdated(item) =>
        var batch := BatchOf(s, job);
        Emit(s.(finishedScanJobs := s.finishedScanJobs - {job},
                pendingScans := s.pendingScans[job := batch.(items := batch.items[item.itemKey := item])]), {})
      case Finished(update) =>
        Emit(s.(finishedScanJobs := s.finishedScanJobs[job := Guard(sequence, now)],
                pendingScans := s.pendingScans - {job}),
             {ScanFinished(job, update, BatchOf(s, job).items)})
  }

  predicate Expired(guard: Guard, now: int) {
    now - guard.finishedAt >= GUARD_TTL_MILLIS
  }

  /** A batch without a job snapshot is completed from the database, or dropped when the job is not found. */
  function ProgressOf(batch: Batch, jobId: int, jobs: map<int, ScanUpdate>): Option<Output> {
    if batch.scanJob.Some? then Some(ScanProgress(jobId, batch.scanJob.value, batch.items))
    else if jobId in jobs then Some(ScanProgress(jobId, jobs[jobId], batch.items))
    else None
  }

  function Progress(pending: map<int, Batch>, jobs: map<int, ScanUpdate>): set<Output> {
    set j | j in pending && ProgressOf(pending[j], j, jobs).Some? :: ProgressOf(pending[j], j, jobs).value
  }

  function LiveGuards(guards: map<int, Guard>, now: int): map<int, Guard> {
    map j | j in guards && !Expired(guards[j], now) :: guards[j]
  }

  function ApplyFlushScans(s: DispatcherState, now: int, jobs: map<int, ScanUpdate>): DispatcherState {
    Emit(s.(finishedScanJobs := LiveGuards(s.finishedScanJobs, now), pendingScans := map[]),
         Progress(s.pendingScans, jobs))
  }

  function Apply(s: DispatcherState, e: Step): DispatcherState {
    match e
    case ResourceChanged(key) => ApplyResourceChanged(s, key)
    case ResourceChangedImmediate(key, revisions) =>
      FlushKeys(s.(log := s.log + [Arrived(key)], pendingContinueWatching := s.pendingContinueWatching - {key}),
                {key}, revisions)
    case ScanEvent(sequence, event, now) => ApplyScanEvent(s, sequence, event, now)
    case FlushResources(revisions) =>
      if s.pendingResources == {} then Emit(s, {})
      else FlushKeys(s.(pendingResources := {}), s.pendingResources, revisions)
    case FlushContinueWatching(revisions) =>
      if s.pendingContinueWatching == {} then Emit(s, {})
      else FlushKeys(s.(pendingContinueWatching := {}), s.pendingContinueWatching, revisions)
    case FlushScans(now, jobs) => ApplyFlushScans(s, now, jobs)
  }

  ghost function Run(s: DispatcherState, steps: seq<Step>): DispatcherState
    decreases |steps|
  {
    if steps == [] then s else Run(Apply(s, steps[0]), steps[1..])
  }

  // ---- Invariants ----

  /** The key arrived and no successful query has included it since. */
  ghost predicate Unserved(log: seq<KeyEvent>, key: string)
    decreases |log|
  {
    log != [] &&
    var last, earlier := log[|log| - 1], log[..|log| - 1];
    if last.Arrived? then last.key == key || Unserved(earlier, key)
    else key !in last.keys && Unserved(earlier, key)
  }

  ghost predicate HasArrived(log: seq<KeyEvent>, key: string) {
    Arrived(key) in log
  }

  ghost predicate Placed(s: DispatcherState, key: string) {
    && (key in s.pendingContinueWatching ==> IsContinueWatching(key) && HasArrived(s.log, key))
    && (key in s.pendingResources ==> !IsContinueWatching(key) && HasArrived(s.log, key))
    && (Unserved(s.log, key) ==> key in s.pendingContinueWatching || key in s.pendingResources)
  }

  ghost predicate Inv(s: DispatcherState) {
    && s.finishedScanJobs.Keys !! s.pendingScans.Keys
    && forall key :: Placed(s, key)
  }

  lemma UnservedAppend(log: seq<KeyEvent>, event: KeyEvent, key: string)
    ensures Unserved(log + [event], key) <==>
      if event.Arrived? then event.key == key || Unserved(log, key) else key !in event.keys && Unserved(log, key)
    ensures HasArrived(log, key) ==> HasArrived(log + [event], key)
  {
    assert (log + [event])[..|log|] == log;
  }

  lemma FlushKeysPlaced(s: DispatcherState, keys: set<string>, revisions: Option<map<string, int>>, key: string)
    requires key in keys ==> HasArrived(s.log, key)
    requires key !in keys ==> Placed(s, key)
    requires key in s.pendingContinueWatching ==> IsContinueWatching(key) && HasArrived(s.log, key)
    requires key in s.pendingResources ==> !IsContinueWatching(key) && HasArrived(s.log, key)
    ensures Placed(FlushKeys(s, keys, revisions), key)
  {
    UnservedAppend(s.log, Queried(keys), key);
  }

  lemma ImmediatePlaced(s: DispatcherState, k: string, revisions: Option<map<string, int>>, key: string)
    requires Placed(s, key)
    ensures Placed(Apply(s, ResourceChangedImmediate(k, revisions)), key)
  {
    var arrived := s.log + [Arrived(k)];
    UnservedAppend(s.log, Arrived(k), key);
    assert arrived[|s.log|] == Arrived(k);
    FlushKeysPlaced(s.(log := arrived, pendingContinueWatching := s.pendingContinueWatching - {k}), {k}, revisions,
        key);
  }

  lemma ChangedPlaced(s: DispatcherState, k: string, key: string)
    requires Placed(s, key)
    ensures Placed(Apply(s, ResourceChanged(k)), key)
  {
    var arrived := s.log + [Arrived(k)];
    UnservedAppend(s.log, Arrived(k), key);
    assert arrived[|s.log|] == Arrived(k);
  }

  lemma PlacedStep(s: DispatcherState, e: Step, key: string)
    requires Placed(s, key)
    ensures Placed(Apply(s, e), key)
  {
    match e {
      case ResourceChanged(k) => ChangedPlaced(s, k, key);
      case ResourceChangedImmediate(k, revisions) => ImmediatePlaced(s, k, revisions, key);
      case ScanEvent(_, _, _) =>
      case FlushResources(revisions) =>
        if s.pendingResources != {} {
          FlushKeysPlaced(s.(pendingResources := {}), s.pendingResources, revisions, key);
        }
      case FlushContinueWatching(revisions) =>
        if s.pendingContinueWatching != {} {
          FlushKeysPlaced(s.(pendingContinueWatching := {}), s.pendingContinueWatching, revisions, key);
        }
      case FlushScans(_, _) =>
    }
  }

  lemma StepKeepsInv(s: DispatcherState, e: Step)
    requires Inv(s)
    ensures Inv(Apply(s, e))
  {
    forall key
      ensures Placed(Apply(s, e), key)
    {
      assert Placed(s, key);
      PlacedStep(s, e, key);
    }
  }

  lemma {:induction false} RunKeepsInv(s: DispatcherState, steps: seq<Step>)
    requires Inv(s)
    ensures Inv(Run(s, steps))
    decreases |steps|
  {
    if steps != [] {
      StepKeepsInv(s, steps[0]);
      RunKeepsInv(Apply(s, steps[0]), steps[1..]);
    }
  }

  // ---- Main results ----

  /**
   * In every run, with any queries failing: a change key that arrived is either
   * in exactly the pending set its suffix selects, or was part of a successful
   * query after its last arrival.
   */
  lemma NoChangeSignalIsLost(start: DispatcherState, steps: seq<Step>, key: string)
    requires Start(start)
    ensures var s := Run(start, steps);
      && (Unserved(s.log, key) ==>
            if IsContinueWatching(key) then key in s.pendingContinueWatching && key !in s.pendingResources
            else key in s.pendingResources && key !in s.pendingContinueWatching)
      && (key in s.pendingResources || key in s.pendingContinueWatching ==> HasArrived(s.log, key))
  {
    RunKeepsInv(start, steps);
    assert Placed(Run(start, steps), key);
  }

  /** A finished job has no batch waiting to be published. */
  lemma FinishedHasNoBatch(start: DispatcherState, steps: seq<Step>)
    requires Start(start)
    ensures Run(start, steps).finishedScanJobs.Keys !! Run(start, steps).pendingScans.Keys
  {
    RunKeepsInv(start, steps);
  }

  ghost predicate Mentions(outputs: set<Output>, jobId: int) {
    exists o | o in outputs :: (o.ScanProgress? || o.ScanFinished?) && o.jobId == jobId
  }

  /** The step neither carries a newer event for the job nor outlives its guard. */
  ghost predicate Quiet(e: Step, jobId: int, guard: Guard) {
    match e
    case ScanEvent(sequence, event, _) => event.JobId() == jobId ==> sequence <= guard.sequence
    case FlushScans(now, _) => now - guard.finishedAt < GUARD_TTL_MILLIS
    case _ => true
  }

  ghost predicate Guarded(s: DispatcherState, jobId: int, guard: Guard) {
    jobId in s.finishedScanJobs && s.finishedScanJobs[jobId] == guard
  }

  lemma QuietStep(s: DispatcherState, e: Step, jobId: int, guard: Guard)
    requires Inv(s) && Guarded(s, jobId, guard) && Quiet(e, jobId, guard)
    ensures Guarded(Apply(s, e), jobId, guard)
    ensures |Apply(s, e).published| == |s.published| + 1 && Apply(s, e).published[..|s.published|] == s.published
    ensures !Mentions(Apply(s, e).published[|s.published|], jobId)
  {
  }

  /**
   * From a Finished event on, nothing about the job is published until a newer
   * event for it arrives or a tick comes a minute later.
   */
  lemma {:induction false} FinishedStaysFinished(s: DispatcherState, steps: seq<Step>, jobId: int, guard: Guard)
    requires Inv(s) && Guarded(s, jobId, guard)
    requires forall i | 0 <= i < |steps| :: Quiet(steps[i], jobId, guard)
    ensures Guarded(Run(s, steps), jobId, guard)
    ensures |Run(s, steps).published| == |s.published| + |steps|
    ensures forall i | |s.published| <= i < |Run(s, steps).published| :: !Mentions(Run(s, steps).published[i], jobId)
    decreases |steps|
  {
    if steps != [] {
      var s' := Apply(s, steps[0]);
      StepKeepsInv(s, steps[0]);
      QuietStep(s, steps[0], jobId, guard);
      FinishedStaysFinished(s', steps[1..], jobId, guard);
      PublishedOnlyGrows(s', steps[1..]);
    }
  }

  lemma {:induction false} PublishedOnlyGrows(s: DispatcherState, steps: seq<Step>)
    ensures |s.published| <= |Run(s, steps).published| && Run(s, steps).published[..|s.published|] == s.published
    decreases |steps|
  {
    if steps != [] {
      var s' := Apply(s, steps[0]);
      EveryStepPublishesOnce(s, steps[0]);
      PublishedOnlyGrows(s', steps[1..]);
      assert Run(s', steps[1..]).published[..|s'.published|][..|s.published|] == s.published;
    }
  }

  lemma EveryStepPublishesOnce(s: DispatcherState, e: Step)
    ensures |Apply(s, e).published| == |s.published| + 1 && Apply(s, e).published[..|s.published|] == s.published
  {
  }

  /** The statement for a whole run: a handled Finished event silences its job for the quiet steps after it. */
  lemma FinishedSilencesJob(start: DispatcherState, before: seq<Step>, sequence: nat, update: ScanUpdate, now: int,
                            after: seq<Step>)
    requires Start(start)
    requires !IsStale(Run(start, before), update.jobId, sequence)
    requires forall i | 0 <= i < |after| :: Quiet(after[i], update.jobId, Guard(sequence, now))
    ensures var s := Apply(Run(start, before), ScanEvent(sequence, Finished(update), now));
      && Mentions(s.published[|s.published| - 1], update.jobId)
      && forall i | |s.published| <= i < |Run(s, after).published| ::
          !Mentions(Run(s, after).published[i], update.jobId)
  {
    RunKeepsInv(start, before);
    var finished := ScanEvent(sequence, Finished(update), now);
    var s := Apply(Run(start, before), finished);
    StepKeepsInv(Run(start, before), finished);
    assert ScanFinished(update.jobId, update, BatchOf(Run(start, before), update.jobId).items)
      in s.published[|s.published| - 1];
    FinishedStaysFinished(s, after, update.jobId, Guard(sequence, now));
  }

  /** A step gives the guard up exactly when it is a newer event of the job, or a tick at which the guard is too old. */
  lemma GuardDroppedOnlyBy(s: DispatcherState, e: Step, jobId: int, guard: Guard)
    requires Guarded(s, jobId, guard)
    ensures Guarded(Apply(s, e), jobId, guard) <==> Quiet(e, jobId, guard)
  {
  }

  lemma RunOfPrefix(s: DispatcherState, steps: seq<Step>, k: nat)
    requires 0 < k <= |steps|
    ensures Run(s, steps[..k]) == Run(Apply(s, steps[0]), steps[1..][..k - 1])
  {
    assert steps[..k][1..] == steps[1..][..k - 1];
  }

  /** So over any run the guard is in place all the way exactly when every step is quiet. */
  lemma {:induction false} GuardHoldsThroughIff(s: DispatcherState, steps: seq<Step>, jobId: int, guard: Guard)
    requires Guarded(s, jobId, guard)
    ensures (forall k | 0 <= k <= |steps| :: Guarded(Run(s, steps[..k]), jobId, guard)) <==>
            forall i | 0 <= i < |steps| :: Quiet(steps[i], jobId, guard)
    decreases |steps|
  {
    if steps != [] {
      var s', rest := Apply(s, steps[0]), steps[1..];
      GuardDroppedOnlyBy(s, steps[0], jobId, guard);
      assert steps == [steps[0]] + rest;
      forall k | 0 < k <= |steps|
        ensures Run(s, steps[..k]) == Run(s', rest[..k - 1])
      {
        RunOfPrefix(s, steps, k);
      }
      if Quiet(steps[0], jobId, guard) {
        GuardHoldsThroughIff(s', rest, jobId, guard);
        if forall k | 0 <= k <= |steps| :: Guarded(Run(s, steps[..k]), jobId, guard) {
          forall k | 0 <= k <= |rest|
            ensures Guarded(Run(s', rest[..k]), jobId, guard)
          {
            assert Run(s, steps[..k + 1]) == Run(s', rest[..k]);
          }
        }
      } else {
        assert Run(s, steps[..1]) == s' by {
          assert rest[..0] == [];
        }
        assert !Guarded(Run(s, steps[..1]), jobId, guard);
      }
    } else {
      assert steps[..0] == [];
    }
  }

  /** Every revision with an audience is published in exactly one message, for that audience. */
  lemma RevisionsReachTheirAudience(revisions: map<string, int>, key: string)
    requires key in revisions
    ensures forall o | o in Grouped(revisions) && o.ResourcesChanged? && key in o.changes ::
      VisibilityFor(key) == Some(o.visibility) && o.changes == ChangesFor(revisions, o.visibility)
    ensures VisibilityFor(key).Some? ==>
      var visibility := VisibilityFor(key).value;
      && ResourcesChanged(visibility, ChangesFor(revisions, visibility)) in Grouped(revisions)
      && key in ChangesFor(revisions, visibility) && ChangesFor(revisions, visibility)[key] == revisions[key]
  {
  }

  /** A session key tells its session or its user to sign in again; any other key waits in the set of its suffix. */
  lemma ChangedKeyIsRouted(s: DispatcherState, key: string)
    ensures var t := Apply(s, ResourceChanged(key));
      && |t.published| == |s.published| + 1
      && t.published[|s.published|] ==
         (if IsRevokedSession(key) then {SessionInvalidated(Session(key))}
          else if SessionUserId(key).Some? then {SessionInvalidated(User(SessionUserId(key).value))}
          else {})
      && var waits := !IsRevokedSession(key) && SessionUserId(key).None?;
         && t.pendingContinueWatching ==
            s.pendingContinueWatching + (if waits && IsContinueWatching(key) then {key} else {})
         && t.pendingResources == s.pendingResources + (if waits && !IsContinueWatching(key) then {key} else {})
  {
  }

  // ---- The dispatcher object ----

  class RealtimeDispatcher {
    var pendingResources: set<string>
    var pendingContinueWatching: set<string>
    var pendingScans: map<int, Batch>
    var finishedScanJobs: map<int, Guard>
    ghost var log: seq<KeyEvent>
    var published: seq<set<Output>>

    ghost function State(): DispatcherState
      reads this
    {
      DispatcherState(pendingResources, pendingContinueWatching, pendingScans, finishedScanJobs, log, published)
    }

    constructor ()
      ensures Start(State())
    {
      pendingResources, pendingContinueWatching := {}, {};
      pendingScans, finishedScanJobs, log, published := map[], map[], [], [];
    }

    method HandleResourceChanged(key: string)
      modifies this
      ensures State() == Apply(old(State()), ResourceChanged(key))
    {
      var outputs: set<Output> := {};
      if IsRevokedSession(key) {
        outputs := {SessionInvalidated(Session(key))};
      } else if SessionUserId(key).Some? {
        outputs := {SessionInvalidated(User(SessionUserId(key).value))};
      } else {
        log := log + [Arrived(key)];
        if IsContinueWatching(key) {
          pendingContinueWatching := pendingContinueWatching + {key};
        } else {
          pendingResources := pendingResources + {key};
        }
      }
      published := published + [outputs];
    }

    method HandleResourceChangedImmediate(key: string, revisions: Option<map<string, int>>)
      modifies this
      ensures State() == Apply(old(State()), ResourceChangedImmediate(key, revisions))
    {
      log := log + [Arrived(key)];
      pendingContinueWatching := pendingContinueWatching - {key};
      FlushResourceKeys({key}, revisions);
    }

    /** Keys of a failed query go back to the set they came from. */
    method FlushResourceKeys(keys: set<string>, revisions: Option<map<string, int>>)
      modifies this`pendingResources, this`pendingContinueWatching, this`log, this`published
      ensures State() == FlushKeys(old(State()), keys, revisions)
    {
      match revisions {
        case None =>
          ghost var before := State();
          var rest := keys;
          while rest != {}
            invariant rest <= keys
            invariant State() == AddAllPending(before, keys - rest)
            decreases rest
          {
            var key :| key in rest;
            rest := rest - {key};
            if IsContinueWatching(key) {
              pendingContinueWatching := pendingContinueWatching + {key};
            } else {
              pendingResources := pendingResources + {key};
            }
          }
          assert keys - rest == keys;
          published := published + [{}];
        case Some(found) =>
          log := log + [Queried(keys)];
          var outputs := GroupRevisions(map k | k in found && k in keys :: found[k]);
          published := published + [outputs];
      }
    }

    method GroupRevisions(revisions: map<string, int>) returns (outputs: set<Output>)
      ensures outputs == Grouped(revisions)
    {
      var grouped: map<Visibility, map<string, int>> := map[];
      var rest := revisions.Keys;
      while rest != {}
        invariant rest <= revisions.Keys
        invariant Collected(grouped, revisions, rest)
        decreases rest
      {
        var key :| key in rest;
        var visibility := VisibilityFor(key);
        if visibility.Some? {
          var changes := if visibility.value in grouped then grouped[visibility.value] else map[];
          CollectAdd(grouped, revisions, rest, key, visibility.value, changes);
          grouped := grouped[visibility.value := changes[key := revisions[key]]];
        } else {
          CollectSkip(grouped, revisions, rest, key);
        }
        rest := rest - {key};
      }
      outputs := set v | v in grouped :: ResourcesChanged(v, grouped[v]);
      CollectedAll(grouped, revisions);
    }

    method HandleScanEvent(sequence: nat, event: ScanJobEvent, now: int)
      modifies this
      ensures State() == Apply(old(State()), ScanEvent(sequence, event, now))
    {
      var job := event.JobId();
      var outputs: set<Output> := {};
      if !(job in finishedScanJobs && sequence <= finishedScanJobs[job].sequence) {
        var batch := if job in pendingScans then pendingScans[job] else EMPTY_BATCH;
        match event {
          case Updated(update) =>
            finishedScanJobs := finishedScanJobs - {job};
            pendingScans := pendingScans[job := batch.(scanJob := Some(update))];
          case Checkpoint(update) =>
            finishedScanJobs := finishedScanJobs - {job};
            pendingScans := pendingScans - {job};
            outputs := {ScanProgress(job, update, batch.items)};
          case ItemUpdated(item) =>
            finishedScanJobs := finishedScanJobs - {job};
            pendingScans := pendingScans[job := batch.(items := batch.items[item.itemKey := item])];
          case Finished(update) =>
            finishedScanJobs := finishedScanJobs[job := Guard(sequence, now)];
            pendingScans := pendingScans - {job};
            outputs := {ScanFinished(job, update, batch.items)};
        }
      }
      published := published + [outputs];
    }

    method FlushResourceChanges(revisions: Option<map<string, int>>)
      modifies this
      ensures State() == Apply(old(State()), FlushResources(revisions))
    {
      if pendingResources == {} {
        published := published + [{}];
        return;
      }
      var keys := pendingResources;
      pendingResources := {};
      FlushResourceKeys(keys, revisions);
    }

    method FlushContinueWatchingChanges(revisions: Option<map<string, int>>)
      modifies this
      ensures State() == Apply(old(State()), FlushContinueWatching(revisions))
    {
      if pendingContinueWatching == {} {
        published := published + [{}];
        return;
      }
      var keys := pendingContinueWatching;
      pendingContinueWatching := {};
      FlushResourceKeys(keys, revisions);
    }

    method FlushScanProgress(now: int, jobs: map<int, ScanUpdate>)
      modifies this
      ensures State() == Apply(old(State()), FlushScans(now, jobs))
    {
      finishedScanJobs := LiveGuards(finishedScanJobs, now);
      var pending := pendingScans;
      pendingScans := map[];
      var outputs := CompleteBatches(pending, jobs);
      published := published + [outputs];
    }
  }

  /** Some member, for the solver to name: it finds none by itself in a set of integers. */
  lemma MemberOf<T>(s: set<T>) returns (x: T)
    requires s != {}
    ensures x in s
  {
    x :| x in s;
  }

  method CompleteBatches(pending: map<int, Batch>, jobs: map<int, ScanUpdate>) returns (outputs: set<Output>)
    ensures outputs == Progress(pending, jobs)
  {
    outputs := {};
    var rest := pending.Keys;
    while rest != {}
      invariant rest <= pending.Keys
      invariant outputs == Progress(pending - rest, jobs)
      decreases |rest|
    {
      ghost var witnessed := MemberOf(rest);
      var job :| job in rest;
      ProgressStep(pending, rest, job, jobs);
      rest := rest - {job};
      var output := ProgressOf(pending[job], job, jobs);
      if output.Some? {
        outputs := outputs + {output.value};
      }
    }
    assert pending - rest == pending;
  }

  lemma ProgressStep(pending: map<int, Batch>, rest: set<int>, job: int, jobs: map<int, ScanUpdate>)
    requires rest <= pending.Keys && job in rest
    ensures Progress(pending - (rest - {job}), jobs)
         == Progress(pending - rest, jobs)
            + (if ProgressOf(pending[job], job, jobs).Some? then {ProgressOf(pending[job], job, jobs).value} else {})
  {
    assert (pending - (rest - {job})).Keys == (pending - rest).Keys + {job};
  }

  ghost function ChangesOf(revisions: map<string, int>, rest: set<string>, visibility: Visibility): map<string, int> {
    map k | k in revisions && k !in rest && VisibilityFor(k) == Some(visibility) :: revisions[k]
  }

  /** The grouping of the revisions outside `rest`. */
  ghost predicate Collected(grouped: map<Visibility, map<string, int>>, revisions: map<string, int>,
                            rest: set<string>) {
    && (forall k | k in revisions && k !in rest && VisibilityFor(k).Some? :: VisibilityFor(k).value in grouped)
    && (forall v | v in grouped :: GroupOk(grouped[v], revisions, rest, v))
  }

  ghost predicate GroupOk(changes: map<string, int>, revisions: map<string, int>, rest: set<string>,
                          visibility: Visibility) {
    changes != map[] && changes == ChangesOf(revisions, rest, visibility)
  }

  lemma GroupGrows(changes: map<string, int>, revisions: map<string, int>, rest: set<string>, key: string,
                   visibility: Visibility)
    requires key in rest && rest <= revisions.Keys && VisibilityFor(key) == Some(visibility)
    requires changes == ChangesOf(revisions, rest, visibility)
    ensures GroupOk(changes[key := revisions[key]], revisions, rest - {key}, visibility)
  {
    SameAudience(revisions, rest, key, visibility);
    assert key in changes[key := revisions[key]];
  }

  lemma OtherAudience(revisions: map<string, int>, rest: set<string>, key: string, v: Visibility)
    requires key in rest && rest <= revisions.Keys && VisibilityFor(key) != Some(v)
    ensures ChangesOf(revisions, rest - {key}, v) == ChangesOf(revisions, rest, v)
  {
  }

  lemma SameAudience(revisions: map<string, int>, rest: set<string>, key: string, v: Visibility)
    requires key in rest && rest <= revisions.Keys && VisibilityFor(key) == Some(v)
    ensures ChangesOf(revisions, rest - {key}, v) == ChangesOf(revisions, rest, v)[key := revisions[key]]
  {
  }

  lemma CollectSkip(grouped: map<Visibility, map<string, int>>, revisions: map<string, int>, rest: set<string>,
                    key: string)
    requires Collected(grouped, revisions, rest) && key in rest && rest <= revisions.Keys && VisibilityFor(key).None?
    ensures Collected(grouped, revisions, rest - {key})
  {
    forall v | v in grouped
      ensures GroupOk(grouped[v], revisions, rest - {key}, v)
    {
      assert GroupOk(grouped[v], revisions, rest, v);
      OtherAudience(revisions, rest, key, v);
    }
  }

  lemma NoneCollected(grouped: map<Visibility, map<string, int>>, revisions: map<string, int>, rest: set<string>,
                      visibility: Visibility)
    requires Collected(grouped, revisions, rest) && visibility !in grouped
    ensures ChangesOf(revisions, rest, visibility) == map[]
  {
    assert forall k | k in revisions && k !in rest :: VisibilityFor(k) != Some(visibility);
  }

  lemma OtherGroupKept(grouped: map<Visibility, map<string, int>>, revisions: map<string, int>, rest: set<string>,
                       key: string, v: Visibility)
    requires Collected(grouped, revisions, rest) && key in rest && rest <= revisions.Keys
    requires v in grouped && VisibilityFor(key) != Some(v)
    ensures GroupOk(grouped[v], revisions, rest - {key}, v)
  {
    assert GroupOk(grouped[v], revisions, rest, v);
    OtherAudience(revisions, rest, key, v);
  }

  lemma CollectAdd(grouped: map<Visibility, map<string, int>>, revisions: map<string, int>, rest: set<string>,
                   key: string, visibility: Visibility, changes: map<string, int>)
    requires Collected(grouped, revisions, rest) && key in rest && rest <= revisions.Keys
    requires VisibilityFor(key) == Some(visibility)
    requires changes == if visibility in grouped then grouped[visibility] else map[]
    ensures Collected(grouped[visibility := changes[key := revisions[key]]], revisions, rest - {key})
  {
    var grouped' := grouped[visibility := changes[key := revisions[key]]];
    assert GroupOk(grouped'[visibility], revisions, rest - {key}, visibility) by {
      if visibility !in grouped {
        NoneCollected(grouped, revisions, rest, visibility);
      } else {
        assert GroupOk(grouped[visibility], revisions, rest, visibility);
      }
      GroupGrows(changes, revisions, rest, key, visibility);
    }
    forall v | v in grouped'
      ensures GroupOk(grouped'[v], revisions, rest - {key}, v)
    {
      if v != visibility {
        OtherGroupKept(grouped, revisions, rest, key, v);
      }
    }
  }

  lemma CollectedAll(grouped: map<Visibility, map<string, int>>, revisions: map<string, int>)
    requires Collected(grouped, revisions, {})
    ensures (set v | v in grouped :: ResourcesChanged(v, grouped[v])) == Grouped(revisions)
  {
    forall v | v in grouped
      ensures grouped[v] == ChangesFor(revisions, v) && ResourcesChanged(v, grouped[v]) in Grouped(revisions)
    {
      assert GroupOk(grouped[v], revisions, {}, v);
      assert ChangesOf(revisions, {}, v) == ChangesFor(revisions, v);
      var key :| key in grouped[v];
      assert VisibilityFor(key) == Some(v);
    }
  }
}
