/**
 * Reuse of identical provider requests within one scan: a bounded result cache
 * in front of one lock per request key. The lock map holds weak references, so
 * a lock exists as long as some task holds or waits for it. Any number of tasks
 * interleave; any of them may be cancelled at an await point.
 */
module RequestReuse {
  import opened Wrappers
  import opened BoundedCache

  datatype Phase<K, V> =
    | Missed(key: K)                            // first cache look-up failed
    | Locking(key: K)                           // holds the lock map, which has just been pruned
    | Waiting(key: K, lock: nat)
    | Holding(key: K, lock: nat)
    | Calling(key: K, lock: nat)                // second look-up failed, provider call running
    | Fetched(key: K, lock: nat, value: V)      // provider call succeeded
    | Stored(key: K, lock: nat)                 // result cached, guard not dropped yet
  {
    predicate HasLock() {
      !Missed? && !Locking?
    }

    predicate Owns() {
      HasLock() && !Waiting?
    }
  }

  datatype Call<K> = Call(key: K, at: nat)

  datatype System<K, V> = System(
    tasks: map<nat, Phase<K, V>>,    // idle tasks are absent
    lockMap: map<K, nat>,
    mapOwner: Option<nat>,
    owners: map<nat, nat>,           // which task holds each acquired lock
    nextLock: nat,
    cache: CacheState<K, V>,
    createdFor: map<nat, K>,         // history: the key each lock was created for
    history: seq<K>,                 // history: keys that were new when their result was cached
    calls: seq<Call<K>>)             // history: provider calls, with the length of `history` when they started

  datatype Event<K, V> =
    | Lookup(task: nat, key: K)
    | EnterMap(task: nat)
    | TakeLock(task: nat)
    | Acquire(task: nat)
    | Recheck(task: nat)
    | Succeed(task: nat, value: V)
    | Fail(task: nat)
    | Store(task: nat)
    | Leave(task: nat)
    | Cancel(task: nat)

  /** Some task still has a strong reference to the lock. */
  ghost predicate Alive<K, V>(s: System<K, V>, lock: nat) {
    exists t | t in s.tasks :: s.tasks[t].HasLock() && s.tasks[t].lock == lock
  }

  ghost predicate Enabled<K, V>(s: System<K, V>, e: Event<K, V>) {
    if e.Lookup? then e.task !in s.tasks
    else
      && e.task in s.tasks
      && var p := s.tasks[e.task];
         match e
         case EnterMap(_) => p.Missed? && s.mapOwner == None
         case TakeLock(t) => p.Locking? && s.mapOwner == Some(t)
         case Acquire(_) => p.Waiting? && p.lock !in s.owners
         case Recheck(_) => p.Holding?
         case Succeed(_, _) => p.Calling?
         case Fail(_) => p.Calling?
         case Store(_) => p.Fetched? && (|s.cache.values| == s.cache.capacity ==> s.cache.order != [])
         case Leave(_) => p.Stored?
         case Cancel(_) => p.Missed? || p.Waiting? || p.Calling?
  }

  /** The task returns; its guard and its reference to the lock are dropped. */
  ghost function Finish<K, V>(s: System<K, V>, task: nat): System<K, V>
    requires task in s.tasks
  {
    var p := s.tasks[task];
    s.(tasks := s.tasks - {task}, owners := if p.Owns() then s.owners - {p.lock} else s.owners)
  }

  ghost function Apply<K, V>(s: System<K, V>, e: Event<K, V>): System<K, V>
    requires Enabled(s, e)
  {
    match e
    case Lookup(t, key) =>
      if key in s.cache.values then s else s.(tasks := s.tasks[t := Missed(key)])
    case EnterMap(t) =>
      s.(tasks := s.tasks[t := Locking(s.tasks[t].key)],
         mapOwner := Some(t),
         lockMap := map k | k in s.lockMap && Alive(s, s.lockMap[k]) :: s.lockMap[k])
    case TakeLock(t) =>
      var key := s.tasks[t].key;
      if key in s.lockMap && Alive(s, s.lockMap[key]) then
        s.(tasks := s.tasks[t := Waiting(key, s.lockMap[key])], mapOwner := None)
      else
        s.(tasks := s.tasks[t := Waiting(key, s.nextLock)],
           mapOwner := None,
           lockMap := s.lockMap[key := s.nextLock],
           createdFor := s.createdFor[s.nextLock := key],
           nextLock := s.nextLock + 1)
    case Acquire(t) =>
      var p := s.tasks[t];
      s.(tasks := s.tasks[t := Holding(p.key, p.lock)], owners := s.owners[p.lock := t])
    case Recheck(t) =>
      var p := s.tasks[t];
      if p.key in s.cache.values then Finish(s, t)
      else s.(tasks := s.tasks[t := Calling(p.key, p.lock)], calls := s.calls + [Call(p.key, |s.history|)])
    case Succeed(t, value) =>
      s.(tasks := s.tasks[t := Fetched(s.tasks[t].key, s.tasks[t].lock, value)])
    case Fail(t) => Finish(s, t)
    case Store(t) =>
      var p := s.tasks[t];
      s.(tasks := s.tasks[t := Stored(p.key, p.lock)],
         cache := InsertInto(s.cache, p.key, p.value),
         history := if p.key in s.cache.values then s.history else s.history + [p.key])
    case Leave(t) => Finish(s, t)
    case Cancel(t) => Finish(s, t)
  }

  ghost predicate Start<K, V>(s: System<K, V>) {
    && s.tasks == map[] && s.lockMap == map[] && s.mapOwner == None && s.owners == map[]
    && s.cache.capacity > 0 && s.cache.values == map[] && s.cache.order == []
    && s.createdFor == map[] && s.history == [] && s.calls == []
  }

  ghost predicate Runs<K, V>(s: System<K, V>, events: seq<Event<K, V>>)
    decreases |events|
  {
    events == [] || (Enabled(s, events[0]) && Runs(Apply(s, events[0]), events[1..]))
  }

  ghost function Run<K, V>(s: System<K, V>, events: seq<Event<K, V>>): System<K, V>
    requires Runs(s, events)
    decreases |events|
  {
    if events == [] then s else Run(Apply(s, events[0]), events[1..])
  }

  // ---- Invariant ----

  ghost predicate TaskOk<K, V>(s: System<K, V>, t: nat, p: Phase<K, V>) {
    && (p.HasLock() ==>
          p.key in s.lockMap && s.lockMap[p.key] == p.lock)
    && (p.Owns() ==> p.lock in s.owners && s.owners[p.lock] == t)
    && (p.Calling? || p.Fetched? ==> p.key !in s.cache.values)
    && (p.Locking? ==> s.mapOwner == Some(t))
  }

  ghost predicate OwnerOk<K, V>(s: System<K, V>, lock: nat, t: nat) {
    t in s.tasks && s.tasks[t].Owns() && s.tasks[t].lock == lock
  }

  /** The key was not among the cached ones when the call started. */
  ghost predicate CallOk<K, V>(s: System<K, V>, call: Call<K>) {
    && call.at <= |s.history|
    && forall j | 0 <= j < call.at && call.at - j <= s.cache.capacity :: s.history[j] != call.key
  }

  ghost predicate Inv<K, V>(s: System<K, V>) {
    && (forall t | t in s.tasks :: TaskOk(s, t, s.tasks[t]))
    && (forall l | l in s.owners :: OwnerOk(s, l, s.owners[l]))
    && (forall l | l in s.createdFor :: l < s.nextLock)
    && (forall k | k in s.lockMap :: s.lockMap[k] in s.createdFor && s.createdFor[s.lockMap[k]] == k)
    && Remembers(s.cache, s.history) && Spaced(s.history, s.cache.capacity)
    && CallsOk(s)
  }

  lemma TasksStep<K, V>(s: System<K, V>, e: Event<K, V>)
    requires Inv(s) && Enabled(s, e) && !e.TakeLock? && !e.EnterMap? && !e.Store?
    ensures forall t | t in Apply(s, e).tasks :: TaskOk(Apply(s, e), t, Apply(s, e).tasks[t])
  {
    var s' := Apply(s, e);
    forall t | t in s'.tasks
      ensures TaskOk(s', t, s'.tasks[t])
    {
      if t != e.task {
        assert TaskOk(s, t, s.tasks[t]);
      } else if t in s.tasks {
        assert TaskOk(s, t, s.tasks[t]);
      }
      if e.task in s.tasks {
        assert TaskOk(s, e.task, s.tasks[e.task]);
      }
    }
  }

  lemma EnterMapStep<K, V>(s: System<K, V>, task: nat)
    requires Inv(s) && Enabled(s, EnterMap(task))
    ensures forall t | t in Apply(s, EnterMap(task)).tasks ::
              TaskOk(Apply(s, EnterMap(task)), t, Apply(s, EnterMap(task)).tasks[t])
  {
    var s' := Apply(s, EnterMap(task));
    forall t | t in s'.tasks
      ensures TaskOk(s', t, s'.tasks[t])
    {
      assert TaskOk(s, t, s.tasks[t]);
      if t != task && s.tasks[t].HasLock() {
        assert Alive(s, s.tasks[t].lock);
      }
    }
  }

  /** A live lock is found again; only a key without one gets a new lock. */
  lemma TakeLockStep<K, V>(s: System<K, V>, task: nat)
    requires Inv(s) && Enabled(s, TakeLock(task))
    ensures forall t | t in Apply(s, TakeLock(task)).tasks ::
              TaskOk(Apply(s, TakeLock(task)), t, Apply(s, TakeLock(task)).tasks[t])
  {
    var s' := Apply(s, TakeLock(task));
    var key := s.tasks[task].key;
    forall t | t in s'.tasks
      ensures TaskOk(s', t, s'.tasks[t])
    {
      assert TaskOk(s, t, s.tasks[t]);
      if t != task && s.tasks[t].HasLock() {
        assert Alive(s, s.tasks[t].lock);
      }
    }
  }

  lemma StoreStep<K, V>(s: System<K, V>, task: nat)
    requires Inv(s) && Enabled(s, Store(task))
    ensures forall t | t in Apply(s, Store(task)).tasks ::
              TaskOk(Apply(s, Store(task)), t, Apply(s, Store(task)).tasks[t])
  {
    var s' := Apply(s, Store(task));
    var key := s.tasks[task].key;
    assert TaskOk(s, task, s.tasks[task]);
    forall t | t in s'.tasks
      ensures TaskOk(s', t, s'.tasks[t])
    {
      assert TaskOk(s, t, s.tasks[t]);
    }
  }

  lemma OwnersStep<K, V>(s: System<K, V>, e: Event<K, V>)
    requires Inv(s) && Enabled(s, e)
    ensures forall l | l in Apply(s, e).owners :: OwnerOk(Apply(s, e), l, Apply(s, e).owners[l])
  {
    var s' := Apply(s, e);
    forall l | l in s'.owners
      ensures OwnerOk(s', l, s'.owners[l])
    {
      if l in s.owners {
        assert OwnerOk(s, l, s.owners[l]);
      }
      if e.task in s.tasks {
        assert TaskOk(s, e.task, s.tasks[e.task]);
      }
    }
  }

  lemma CacheStep<K, V>(s: System<K, V>, e: Event<K, V>)
    requires Remembers(s.cache, s.history) && Spaced(s.history, s.cache.capacity) && Enabled(s, e)
    ensures Remembers(Apply(s, e).cache, Apply(s, e).history)
    ensures Spaced(Apply(s, e).history, Apply(s, e).cache.capacity)
  {
    if e.Store? {
      var p := s.tasks[e.task];
      InsertRemembers(s.cache, s.history, p.key, p.value);
      if p.key !in s.cache.values {
        InsertSpaced(s.cache, s.history, p.key);
      }
    }
  }

  lemma NotCachedNotRecent<K, V>(c: CacheState<K, V>, history: seq<K>, key: K)
    requires Remembers(c, history) && key !in c.values
    ensures forall j | 0 <= j < |history| && |history| - j <= c.capacity :: history[j] != key
  {
    QueuedExactlyCached(c);
    forall j | 0 <= j < |history| && |history| - j <= c.capacity
      ensures history[j] != key
    {
      assert c.order[j - (|history| - |c.order|)] == history[j];
    }
  }

  ghost predicate CallsOk<K, V>(s: System<K, V>) {
    forall i | 0 <= i < |s.calls| :: CallOk(s, s.calls[i])
  }

  lemma CallsStep<K, V>(s: System<K, V>, e: Event<K, V>)
    requires CallsOk(s) && Remembers(s.cache, s.history) && Enabled(s, e)
    ensures CallsOk(Apply(s, e))
  {
    var s' := Apply(s, e);
    if e.Recheck? {
      var p := s.tasks[e.task];
      if p.key !in s.cache.values {
        NotCachedNotRecent(s.cache, s.history, p.key);
        assert CallOk(s', Call(p.key, |s.history|));
      }
    }
    forall i | 0 <= i < |s.calls|
      ensures CallOk(s', s.calls[i])
    {
      assert CallOk(s, s.calls[i]);
    }
  }

  lemma StepKeepsInv<K, V>(s: System<K, V>, e: Event<K, V>)
    requires Inv(s) && Enabled(s, e)
    ensures Inv(Apply(s, e))
  {
    if e.EnterMap? {
      EnterMapStep(s, e.task);
    } else if e.TakeLock? {
      TakeLockStep(s, e.task);
    } else if e.Store? {
      StoreStep(s, e.task);
    } else {
      TasksStep(s, e);
    }
    OwnersStep(s, e);
    CacheStep(s, e);
    CallsStep(s, e);
    LockMapStep(s, e);
  }

  lemma LockMapStep<K, V>(s: System<K, V>, e: Event<K, V>)
    requires Inv(s) && Enabled(s, e)
    ensures var s' := Apply(s, e);
      && (forall l | l in s'.createdFor :: l < s'.nextLock)
      && (forall k | k in s'.lockMap :: s'.lockMap[k] in s'.createdFor && s'.createdFor[s'.lockMap[k]] == k)
  {
  }

  lemma {:induction false} RunKeepsInv<K, V>(s: System<K, V>, events: seq<Event<K, V>>)
    requires Inv(s) && Runs(s, events)
    ensures Inv(Run(s, events))
    decreases |events|
  {
    if events != [] {
      StepKeepsInv(s, events[0]);
      RunKeepsInv(Apply(s, events[0]), events[1..]);
    }
  }

  // ---- Main results ----

  lemma ReachableInv<K, V>(start: System<K, V>, events: seq<Event<K, V>>)
    requires Start(start) && Runs(start, events)
    ensures Inv(Run(start, events))
  {
    RunKeepsInv(start, events);
  }

  /** Tasks hold or wait for the same lock exactly when they ask for the same key. */
  lemma OneLockPerKey<K, V>(start: System<K, V>, events: seq<Event<K, V>>, t: nat, u: nat)
    requires Start(start) && Runs(start, events)
    requires t in Run(start, events).tasks && u in Run(start, events).tasks
    requires Run(start, events).tasks[t].HasLock() && Run(start, events).tasks[u].HasLock()
    ensures var s := Run(start, events); s.tasks[t].key == s.tasks[u].key <==> s.tasks[t].lock == s.tasks[u].lock
  {
    ReachableInv(start, events);
    var s := Run(start, events);
    assert TaskOk(s, t, s.tasks[t]) && TaskOk(s, u, s.tasks[u]);
  }

  /** Provider calls for one key never overlap. */
  lemma SingleFlight<K, V>(start: System<K, V>, events: seq<Event<K, V>>, t: nat, u: nat)
    requires Start(start) && Runs(start, events)
    requires t in Run(start, events).tasks && u in Run(start, events).tasks
    requires Run(start, events).tasks[t].Calling? && Run(start, events).tasks[u].Calling?
    ensures var s := Run(start, events); s.tasks[t].key == s.tasks[u].key ==> t == u
  {
    ReachableInv(start, events);
    var s := Run(start, events);
    assert TaskOk(s, t, s.tasks[t]) && TaskOk(s, u, s.tasks[u]);
  }

  /**
   * After a success for a key (an entry of the history) no provider call for it
   * starts until `capacity` further keys, all different, have been cached.
   */
  lemma NoCallUntilEvicted<K, V>(start: System<K, V>, events: seq<Event<K, V>>, call: Call<K>, success: nat)
    requires Start(start) && Runs(start, events)
    requires call in Run(start, events).calls
    requires success < call.at && success < |Run(start, events).history|
    requires Run(start, events).history[success] == call.key
    ensures var s := Run(start, events);
      && success + 1 + s.cache.capacity <= call.at <= |s.history|
      && var later := s.history[success + 1..success + 1 + s.cache.capacity];
         NoDuplicates(later) && call.key !in later
  {
    ReachableInv(start, events);
    var s := Run(start, events);
    assert CallOk(s, call);
  }

  /** A cached key is answered from the cache: no task that finds it calls the provider. */
  lemma CachedKeyIsNotCalled<K, V>(start: System<K, V>, events: seq<Event<K, V>>, t: nat)
    requires Start(start) && Runs(start, events)
    requires t in Run(start, events).tasks && Run(start, events).tasks[t].Calling?
    ensures Run(start, events).tasks[t].key !in Run(start, events).cache.values
  {
    ReachableInv(start, events);
    var s := Run(start, events);
    assert TaskOk(s, t, s.tasks[t]);
  }

  // ---- the lock map as an object ----

  /** While a task holds the lock map, nothing another task does reaches the map or that task. */
  lemma MapIsUntouched<K, V>(s: System<K, V>, e: Event<K, V>, task: nat)
    requires Enabled(s, e) && e.task != task
    requires s.mapOwner == Some(task) && task in s.tasks && s.tasks[task].Locking?
    ensures var s' := Apply(s, e);
      s'.mapOwner == s.mapOwner && s'.lockMap == s.lockMap && s'.nextLock == s.nextLock
      && task in s'.tasks && s'.tasks[task] == s.tasks[task]
  {
  }

  lemma {:induction false} MapStaysUntouched<K, V>(s: System<K, V>, events: seq<Event<K, V>>, task: nat)
    requires Runs(s, events) && forall i | 0 <= i < |events| :: events[i].task != task
    requires s.mapOwner == Some(task) && task in s.tasks && s.tasks[task].Locking?
    ensures var s' := Run(s, events);
      s'.mapOwner == s.mapOwner && s'.lockMap == s.lockMap && s'.nextLock == s.nextLock
      && task in s'.tasks && s'.tasks[task] == s.tasks[task]
    decreases |events|
  {
    if events != [] {
      MapIsUntouched(s, events[0], task);
      MapStaysUntouched(Apply(s, events[0]), events[1..], task);
    }
  }

  /** The locks of the map that some task still refers to. */
  ghost predicate CountsStrong<K, V>(alive: set<nat>, s: System<K, V>) {
    forall k | k in s.lockMap :: s.lockMap[k] in alive <==> Alive(s, s.lockMap[k])
  }

  lemma StoreCaches<K, V>(s: System<K, V>, a: nat, key: K, lock: nat, value: V)
    requires Inv(s) && a in s.tasks && s.tasks[a] == Fetched(key, lock, value)
    ensures Enabled(s, Store(a)) && lock in s.owners
    ensures var t := Apply(s, Store(a));
      && t.tasks == s.tasks[a := Stored(key, lock)] && t.owners == s.owners && t.calls == s.calls
      && key in t.cache.values && t.cache.values[key] == value
  {
    assert TaskOk(s, a, s.tasks[a]);
  }

  lemma LeaveFreesLock<K, V>(s: System<K, V>, a: nat, key: K, lock: nat)
    requires a in s.tasks && s.tasks[a] == Stored(key, lock)
    ensures Enabled(s, Leave(a))
    ensures var t := Apply(s, Leave(a));
      && t.tasks == s.tasks - {a} && t.owners == s.owners - {lock} && t.calls == s.calls && t.cache == s.cache
  {
  }

  lemma WaiterFindsResult<K, V>(s: System<K, V>, b: nat, key: K, lock: nat)
    requires b in s.tasks && s.tasks[b] == Waiting(key, lock) && lock !in s.owners && key in s.cache.values
    ensures Enabled(s, Acquire(b)) && Enabled(Apply(s, Acquire(b)), Recheck(b))
    ensures var t := Apply(Apply(s, Acquire(b)), Recheck(b));
      && t.tasks == s.tasks - {b} && t.owners == s.owners && t.calls == s.calls && t.cache == s.cache
  {
    var held := Apply(s, Acquire(b));
    assert held.owners - {lock} == s.owners;
    assert held.tasks - {b} == s.tasks - {b};
  }

  lemma StepThen<K, V>(s: System<K, V>, e: Event<K, V>, more: seq<Event<K, V>>)
    requires Enabled(s, e) && Runs(Apply(s, e), more)
    ensures Runs(s, [e] + more) && Run(s, [e] + more) == Run(Apply(s, e), more)
  {
    assert ([e] + more)[1..] == more;
  }

  lemma FourSteps<K, V>(s: System<K, V>, e: Event<K, V>, f: Event<K, V>, g: Event<K, V>, h: Event<K, V>)
    requires Enabled(s, e) && Enabled(Apply(s, e), f) && Enabled(Apply(Apply(s, e), f), g)
    requires Enabled(Apply(Apply(Apply(s, e), f), g), h)
    ensures Runs(s, [e, f, g, h]) && Run(s, [e, f, g, h]) == Apply(Apply(Apply(Apply(s, e), f), g), h)
  {
    var s1, s2, s3 := Apply(s, e), Apply(Apply(s, e), f), Apply(Apply(Apply(s, e), f), g);
    var none: seq<Event<K, V>> := [];
    StepThen(s3, h, none);
    StepThen(s2, g, [h] + none);
    StepThen(s1, f, [g] + ([h] + none));
    StepThen(s, e, [f] + ([g] + ([h] + none)));
    assert [e, f, g, h] == [e] + ([f] + ([g] + ([h] + none)));
  }

  /** A task that waited while another one called finds its result: no second call is made, and both are done. */
  lemma WaiterReusesResult<K, V>(s: System<K, V>, a: nat, b: nat, key: K, lock: nat, value: V)
    requires Inv(s) && a in s.tasks && b in s.tasks
    requires s.tasks[a] == Fetched(key, lock, value) && s.tasks[b] == Waiting(key, lock)
    ensures Runs(s, [Store(a), Leave(a), Acquire(b), Recheck(b)])
    ensures var t := Run(s, [Store(a), Leave(a), Acquire(b), Recheck(b)]);
      && t.tasks == s.tasks - {a, b} && t.calls == s.calls && t.owners == s.owners - {lock}
      && key in t.cache.values && t.cache.values[key] == value
  {
    StoreCaches(s, a, key, lock, value);
    LeaveFreesLock(Apply(s, Store(a)), a, key, lock);
    WaiterFindsResult(Apply(Apply(s, Store(a)), Leave(a)), b, key, lock);
    FourSteps(s, Store(a), Leave(a), Acquire(b), Recheck(b));
    assert s.tasks[a := Stored(key, lock)] - {a} - {b} == s.tasks - {a, b};
  }

  /** A cached key is answered at once, and a task that finds nothing under its lock makes one call. */
  lemma HitOrOneCall<K, V>(s: System<K, V>, t: nat, key: K, lock: nat)
    ensures t !in s.tasks && key in s.cache.values ==> Apply(s, Lookup(t, key)) == s
    ensures t in s.tasks && s.tasks[t] == Holding(key, lock) && key !in s.cache.values ==>
      Apply(s, Recheck(t)).calls == s.calls + [Call(key, |s.history|)]
  {
  }

  /**
   * The lock map itself. Other tasks drop and acquire locks at any time, so strong counts are read twice: when pruning
   * and when upgrading.
   */
  class RequestLocks<K(==), V> {
    var locks: map<K, nat>

    /**
     * The two steps of a task on the map, with any steps of other tasks in between: the map and the lock it returns are
     * those of the system. `before` is the system when the map is taken.
     */
    method LockSharedRequest(key: K, aliveAtPrune: set<nat>, aliveAtUpgrade: set<nat>, newLock: nat,
                             ghost before: System<K, V>, ghost task: nat, ghost between: seq<Event<K, V>>)
      returns (lock: nat)
      requires locks == before.lockMap && newLock == before.nextLock
      requires Enabled(before, EnterMap(task)) && before.tasks[task].key == key
      requires Runs(Apply(before, EnterMap(task)), between)
      requires forall i | 0 <= i < |between| :: between[i].task != task
      requires CountsStrong(aliveAtPrune, before)
      requires CountsStrong(aliveAtUpgrade, Run(Apply(before, EnterMap(task)), between))
      modifies this
      ensures var upgrading := Run(Apply(before, EnterMap(task)), between);
        && Enabled(upgrading, TakeLock(task))
        && var after := Apply(upgrading, TakeLock(task));
           locks == after.lockMap && after.tasks[task] == Waiting(key, lock)
    {
      MapStaysUntouched(Apply(before, EnterMap(task)), between, task);
      locks := map k | k in locks && locks[k] in aliveAtPrune :: locks[k];
      assert locks == Apply(before, EnterMap(task)).lockMap;
      if key in locks && locks[key] in aliveAtUpgrade {
        lock := locks[key];
      } else {
        lock := newLock;
        locks := locks[key := lock];
      }
    }
  }
}
