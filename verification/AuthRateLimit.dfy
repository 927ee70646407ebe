/** Limiting password attempts per key: what an entry means as a log of events, and what the table keeps. */
module AuthRateLimit {
  import opened Wrappers

  const U32_MAX: nat := 0xFFFF_FFFF
  const NANOS: nat := 1_000_000_000

  /** Durations and instants are in nanoseconds. */
  datatype Settings = Settings(maxFailures: nat, window: nat, lockout: nat, maxKeys: nat) {
    /** The failure that locks out: even a limit of zero lets one through. */
    function Threshold(): nat {
      if maxFailures == 0 then 1 else maxFailures
    }

    function Retention(): nat {
      2 * (if window < lockout then lockout else window)
    }
  }

  datatype Entry = Entry(windowStartedAt: nat, failedAttempts: nat, blockedUntil: Option<nat>, lastSeenAt: nat)

  function NewEntry(now: nat): Entry {
    Entry(now, 0, None, now)
  }

  function Since(now: nat, earlier: nat): nat {
    if now < earlier then 0 else now - earlier
  }

  predicate LockedAt(e: Entry, now: nat) {
    e.blockedUntil.Some? && e.blockedUntil.value > now
  }

  /** The entry has served its lockout, or its window is over. */
  predicate Expired(s: Settings, e: Entry, now: nat) {
    if e.blockedUntil.Some? then e.blockedUntil.value <= now else Since(now, e.windowStartedAt) >= s.window
  }

  function Touched(s: Settings, e: Entry, now: nat): Entry {
    if Expired(s, e, now) then NewEntry(now) else e.(lastSeenAt := now)
  }

  function SaturatingIncrement(n: nat): nat {
    if n < U32_MAX then n + 1 else n
  }

  function Failed(s: Settings, e: Entry, now: nat): Entry {
    if LockedAt(e, now) then e.(lastSeenAt := now)
    else
      var current := Touched(s, e, now);
      var counted := current.(failedAttempts := SaturatingIncrement(current.failedAttempts));
      if counted.failedAttempts < s.maxFailures then counted else counted.(blockedUntil := Some(now + s.lockout))
  }

  // ---- rounding ----

  function RemainingSeconds(now: nat, deadline: nat): nat {
    var remaining := Since(deadline, now);
    remaining / NANOS + (if remaining % NANOS > 0 then 1 else 0)
  }

  /** The least whole number of seconds that reaches the deadline. */
  lemma RemainingSecondsRoundsUp(now: nat, deadline: nat)
    ensures now + RemainingSeconds(now, deadline) * NANOS >= deadline
    ensures forall r: nat | r < RemainingSeconds(now, deadline) :: now + r * NANOS < deadline
  {
    var remaining := Since(deadline, now);
    assert remaining == NANOS * (remaining / NANOS) + remaining % NANOS;
  }

  // ---- one key as a log ----

  datatype LogEvent = LogEvent(failure: bool, at: nat)

  /**
   * What happened to a key since it was first tracked, a failure first. Callers read the clock before they wait for
   * the table, so the instants need not ascend.
   */
  ghost predicate IsLog(log: seq<LogEvent>) {
    log != [] && log[0].failure
  }

  function Step(s: Settings, e: Entry, event: LogEvent): Entry {
    if event.failure then Failed(s, e, event.at)
    else if LockedAt(e, event.at) then e.(lastSeenAt := event.at)
    else Touched(s, e, event.at)
  }

  function EntryOf(s: Settings, log: seq<LogEvent>): Entry
    requires log != []
  {
    var last := log[|log| - 1];
    if |log| == 1 then Step(s, NewEntry(last.at), last) else Step(s, EntryOf(s, log[..|log| - 1]), last)
  }

  function Failures(log: seq<LogEvent>, lo: nat, hi: nat): nat
    requires lo <= hi <= |log|
    decreases hi
  {
    if lo == hi then 0 else Failures(log, lo, hi - 1) + (if log[hi - 1].failure then 1 else 0)
  }

  lemma {:induction false} FailuresOfPrefix(log: seq<LogEvent>, more: seq<LogEvent>, lo: nat, hi: nat)
    requires lo <= hi <= |log|
    ensures Failures(log + more, lo, hi) == Failures(log, lo, hi)
    decreases hi
  {
    if hi > lo {
      FailuresOfPrefix(log, more, lo, hi - 1);
    }
  }

  /**
   * The entry read off the log. The window opened at event `start`. While it is open, every failure in it counts and
   * there are fewer than the threshold; the failure at `stop` that reached the threshold closed it, and the lockout
   * that began there is not over.
   */
  ghost predicate Means(s: Settings, e: Entry, log: seq<LogEvent>, start: nat, stop: nat) {
    && start < |log| && start <= stop <= |log|
    && e.windowStartedAt == log[start].at
    && e.lastSeenAt == log[|log| - 1].at
    && (if stop == |log| then
          && e.blockedUntil == None
          && e.failedAttempts == Failures(log, start, |log|) < s.Threshold()
          && (start == |log| - 1 || log[|log| - 1].at - log[start].at < s.window)
        else
          && log[stop].failure
          && e.blockedUntil == Some(log[stop].at + s.lockout)
          && e.failedAttempts == Failures(log, start, stop + 1) == s.Threshold()
          && (stop == |log| - 1 || log[|log| - 1].at < log[stop].at + s.lockout))
  }

  lemma StepMeans(s: Settings, e: Entry, log: seq<LogEvent>, start: nat, stop: nat, event: LogEvent)
    returns (start': nat, stop': nat)
    requires s.maxFailures <= U32_MAX
    requires log != [] && Means(s, e, log, start, stop)
    ensures Means(s, Step(s, e, event), log + [event], start', stop')
    // A new window opens exactly when the lockout has been served, or else the window is over.
    ensures start' ==
            if (if stop < |log| then log[stop].at + s.lockout <= event.at
                else event.at - log[start].at >= s.window || s.window == 0)
            then |log| else start
  {
    var longer := log + [event];
    FailuresOfPrefix(log, [event], start, |log|);
    if stop < |log| {
      FailuresOfPrefix(log, [event], start, stop + 1);
    }
    if Expired(s, e, event.at) {
      start' := |log|;
      assert Failures(longer, start', start') == 0;
    } else {
      start' := start;
    }
    if LockedAt(e, event.at) {
      stop' := stop;
    } else {
      stop' := if Step(s, e, event).blockedUntil.Some? then |log| else |longer|;
    }
  }

  lemma {:induction false} EntryMeans(s: Settings, log: seq<LogEvent>) returns (start: nat, stop: nat)
    requires s.maxFailures <= U32_MAX && IsLog(log)
    ensures Means(s, EntryOf(s, log), log, start, stop)
  {
    var init, last := log[..|log| - 1], log[|log| - 1];
    if init == [] {
      start, stop := 0, if EntryOf(s, log).blockedUntil.Some? then 0 else 1;
      assert Failures(log, 0, 1) == 1;
    } else {
      var start0, stop0 := EntryMeans(s, init);
      start, stop := StepMeans(s, EntryOf(s, init), init, start0, stop0, last);
      assert init + [last] == log;
    }
  }

  /** Failures within one window add up: the one that reaches the threshold locks the key out from then on. */
  lemma {:induction false} FailuresLockOut(s: Settings, log: seq<LogEvent>)
    requires s.maxFailures <= U32_MAX && 0 < |log| <= s.Threshold() && log[0].failure
    requires forall i | 0 <= i < |log| :: log[i].failure && log[i].at < log[0].at + s.window
    ensures EntryOf(s, log).windowStartedAt == log[0].at && EntryOf(s, log).failedAttempts == |log|
    ensures EntryOf(s, log).blockedUntil ==
            if |log| == s.Threshold() then Some(log[|log| - 1].at + s.lockout) else None
  {
    if |log| > 1 {
      FailuresLockOut(s, log[..|log| - 1]);
    }
  }

  /** After a lockout is over the key starts again with the next event. */
  lemma ServedLockoutStartsAgain(s: Settings, e: Entry, event: LogEvent)
    requires s.maxFailures <= U32_MAX && e.blockedUntil.Some? && e.blockedUntil.value <= event.at
    ensures var after := Step(s, e, event);
            && after.windowStartedAt == event.at && after.failedAttempts == (if event.failure then 1 else 0)
            && after.blockedUntil == if event.failure && s.Threshold() == 1 then Some(event.at + s.lockout) else None
  {
  }

  /** The counter never passes the threshold, and reaches it exactly when the key is locked out. */
  lemma {:induction false} LockedExactlyAtThreshold(s: Settings, log: seq<LogEvent>)
    requires s.maxFailures <= U32_MAX && IsLog(log)
    ensures EntryOf(s, log).failedAttempts <= s.Threshold()
    ensures EntryOf(s, log).blockedUntil.Some? <==> EntryOf(s, log).failedAttempts == s.Threshold()
  {
    var start, stop := EntryMeans(s, log);
  }

  /** A lockout is not lifted, shortened or extended by anything that happens to the key before it is over. */
  lemma {:induction false} LockoutLasts(s: Settings, log: seq<LogEvent>, more: seq<LogEvent>, deadline: nat)
    requires log != [] && EntryOf(s, log).blockedUntil == Some(deadline)
    requires forall i | 0 <= i < |more| :: more[i].at < deadline
    ensures EntryOf(s, log + more).blockedUntil == Some(deadline)
    ensures EntryOf(s, log + more).failedAttempts == EntryOf(s, log).failedAttempts
  {
    if more == [] {
      assert log + more == log;
    } else {
      LockoutLasts(s, log, more[..|more| - 1], deadline);
      assert (log + more)[..|log + more| - 1] == log + more[..|more| - 1];
    }
  }

  // ---- the table ----

  function Stays(s: Settings, e: Entry, now: nat): bool {
    LockedAt(e, now) || Since(now, e.lastSeenAt) < s.Retention()
  }

  function Retained(s: Settings, entries: map<string, Entry>, now: nat): map<string, Entry> {
    map key | key in entries && Stays(s, entries[key], now) :: entries[key]
  }

  ghost predicate IsOldest(entries: map<string, Entry>, key: string) {
    key in entries && forall other | other in entries :: entries[key].lastSeenAt <= entries[other].lastSeenAt
  }

  /** Entries leave only for a new key at a full table: the stale ones, and the oldest if that is not enough. */
  ghost predicate MadeRoom(s: Settings, before: map<string, Entry>, now: nat, key: string, after: map<string, Entry>) {
    if key in before || |before| < s.maxKeys then after == before
    else
      var retained := Retained(s, before, now);
      if |retained| < s.maxKeys || retained == map[] then after == retained
      else exists oldest :: IsOldest(retained, oldest) && after == retained - {oldest}
  }

  /** An entry is kept while its lockout lasts, and for twice the longer of window and lockout after it was seen. */
  lemma RetainedAre(s: Settings, entries: map<string, Entry>, now: nat, key: string)
    ensures key in Retained(s, entries, now) <==>
            && key in entries
            && (|| (entries[key].blockedUntil.Some? && entries[key].blockedUntil.value > now)
                || (now < entries[key].lastSeenAt + 2 * s.window && s.window > 0)
                || (now < entries[key].lastSeenAt + 2 * s.lockout && s.lockout > 0))
    ensures key in Retained(s, entries, now) ==> Retained(s, entries, now)[key] == entries[key]
  {
  }

  lemma RetainedIsNotLarger(s: Settings, entries: map<string, Entry>, now: nat)
    ensures |Retained(s, entries, now)| <= |entries|
  {
    SubsetIsNotLarger(Retained(s, entries, now).Keys, entries.Keys);
    assert |Retained(s, entries, now).Keys| == |Retained(s, entries, now)| && |entries.Keys| == |entries|;
  }

  lemma SubsetIsNotLarger(a: set<string>, b: set<string>)
    requires a <= b
    ensures |a| <= |b|
  {
    assert b == a + (b - a);
  }

  /**
   * Making room can forget a key that is locked out exactly when a new key meets a table full of live entries, of
   * which it is one seen longest ago.
   */
  lemma LockedKeyLeavesIffOldest(s: Settings, before: map<string, Entry>, now: nat, incoming: string, key: string)
    requires key in before && LockedAt(before[key], now)
    ensures (exists after :: MadeRoom(s, before, now, incoming, after) && key !in after) <==>
            && incoming !in before && |Retained(s, before, now)| >= s.maxKeys
            && IsOldest(Retained(s, before, now), key)
  {
    var retained := Retained(s, before, now);
    assert key in retained;
    RetainedIsNotLarger(s, before, now);
    if incoming !in before && |retained| >= s.maxKeys && IsOldest(retained, key) {
      assert MadeRoom(s, before, now, incoming, retained - {key});
    }
  }

  /** A limiter that locks out for ten seconds at the first failure and tracks two keys. */
  const TWO_KEYS: Settings := Settings(1, NANOS, 10 * NANOS, 2)

  /** Two keys that failed one after the other, a nanosecond ago and now. */
  function BothLocked(): map<string, Entry> {
    map["first" := Failed(TWO_KEYS, NewEntry(0), 0), "second" := Failed(TWO_KEYS, NewEntry(1), 1)]
  }

  /** A third key makes the first one leave in the middle of its lockout. */
  lemma ThirdKeyEndsALockout()
    ensures LockedAt(BothLocked()["first"], 1)
    ensures forall after | MadeRoom(TWO_KEYS, BothLocked(), 1, "third", after) :: "first" !in after && "second" in after
    ensures exists after :: MadeRoom(TWO_KEYS, BothLocked(), 1, "third", after)
  {
    var table := BothLocked();
    assert Retained(TWO_KEYS, table, 1) == table;
    assert table.Keys == {"first", "second"} && |table| == |table.Keys| == 2;
    assert IsOldest(table, "first");
    assert MadeRoom(TWO_KEYS, table, 1, "third", table - {"first"});
  }

  method OldestKey(entries: map<string, Entry>) returns (oldest: string)
    requires entries != map[]
    ensures IsOldest(entries, oldest)
  {
    var rest := entries.Keys;
    oldest :| oldest in rest;
    while rest != {}
      invariant rest <= entries.Keys && oldest in entries
      invariant forall other | other in entries && other !in rest ::
          entries[oldest].lastSeenAt <= entries[other].lastSeenAt
    {
      var key :| key in rest;
      if entries[key].lastSeenAt < entries[oldest].lastSeenAt {
        oldest := key;
      }
      rest := rest - {key};
    }
  }

  // ---- the table and the logs ----

  ghost predicate KeyOk(s: Settings, e: Entry, log: seq<LogEvent>) {
    IsLog(log) && e == EntryOf(s, log)
  }

  ghost predicate TableOk(s: Settings, entries: map<string, Entry>, logs: map<string, seq<LogEvent>>) {
    && entries.Keys == logs.Keys
    && forall key | key in entries :: KeyOk(s, entries[key], logs[key])
  }

  function Restricted(logs: map<string, seq<LogEvent>>, keys: set<string>): map<string, seq<LogEvent>> {
    map key | key in logs && key in keys :: logs[key]
  }

  lemma LogStarts(s: Settings, event: LogEvent)
    requires event.failure
    ensures KeyOk(s, Step(s, NewEntry(event.at), event), [event])
  {
  }

  lemma LogExtends(s: Settings, e: Entry, log: seq<LogEvent>, event: LogEvent)
    requires KeyOk(s, e, log)
    ensures KeyOk(s, Step(s, e, event), log + [event])
  {
    assert (log + [event])[..|log|] == log;
  }

  lemma UpdatedTable(s: Settings, entries: map<string, Entry>, logs: map<string, seq<LogEvent>>, key: string, e: Entry,
                     log: seq<LogEvent>)
    requires TableOk(s, entries, logs) && KeyOk(s, e, log)
    ensures TableOk(s, entries[key := e], logs[key := log])
  {
  }

  lemma SmallerTable(s: Settings, entries: map<string, Entry>, logs: map<string, seq<LogEvent>>,
                     fewer: map<string, Entry>)
    requires TableOk(s, entries, logs)
    requires fewer.Keys <= entries.Keys && forall key | key in fewer :: fewer[key] == entries[key]
    ensures TableOk(s, fewer, Restricted(logs, fewer.Keys))
  {
  }

  class AuthRateLimiter {
    const settings: Settings
    var entries: map<string, Entry>
    /** What happened to each tracked key since it was last forgotten. */
    ghost var logs: map<string, seq<LogEvent>>

    ghost predicate Valid()
      reads this
    {
      && settings.maxFailures <= U32_MAX
      && |entries| <= Capacity()
      && TableOk(settings, entries, logs)
    }

    /** One key is tracked even at a limit of zero. */
    function Capacity(): nat {
      if settings.maxKeys == 0 then 1 else settings.maxKeys
    }

    constructor (settings: Settings)
      requires settings.maxFailures <= U32_MAX
      ensures Valid() && this.settings == settings && entries == map[] && logs == map[]
    {
      this.settings := settings;
      entries, logs := map[], map[];
    }

    /** Says no exactly during a lockout, with the seconds left rounded up; a key that is not tracked stays so. */
    method CheckAt(key: string, now: nat) returns (r: Result<(), nat>)
      requires Valid()
      modifies this
      ensures Valid()
      ensures r == if key in old(entries) && LockedAt(old(entries[key]), now)
                   then Err(RemainingSeconds(now, old(entries[key]).blockedUntil.value)) else Ok(())
      ensures logs == if key in old(entries) then old(logs)[key := old(logs[key]) + [LogEvent(false, now)]]
          else old(logs)
    {
      if key !in entries {
        return Ok(());
      }
      var entry := entries[key];
      var event := LogEvent(false, now);
      LogExtends(settings, entry, logs[key], event);
      UpdatedTable(settings, entries, logs, key, Step(settings, entry, event), logs[key] + [event]);
      entries := entries[key := Step(settings, entry, event)];
      logs := logs[key := logs[key] + [event]];
      if LockedAt(entry, now) {
        return Err(RemainingSeconds(now, entry.blockedUntil.value));
      }
      return Ok(());
    }

    /** Counts the failure, after making room for a new key, and says how long the key is locked out, if it is. */
    method RecordFailureAt(key: string, now: nat) returns (r: Option<nat>, ghost kept: map<string, Entry>)
      requires Valid()
      modifies this
      ensures Valid()
      ensures MadeRoom(settings, old(entries), now, key, kept) && kept.Keys <= old(entries).Keys
      ensures logs == Restricted(old(logs), kept.Keys)
                      [key := (if key in kept then old(logs)[key] else []) + [LogEvent(true, now)]]
      ensures key in entries && |entries| <= if settings.maxKeys == 0 then 1 else settings.maxKeys
      ensures r == if entries[key].blockedUntil.Some? then Some(RemainingSeconds(now, entries[key].blockedUntil.value))
                   else None
    {
      MakeRoom(now, key);
      kept := entries;
      var event := LogEvent(true, now);
      var entry := if key in entries then entries[key] else NewEntry(now);
      ghost var log := if key in entries then logs[key] else [];
      if key in entries {
        LogExtends(settings, entry, log, event);
      } else {
        LogStarts(settings, event);
      }
      var counted := Step(settings, entry, event);
      UpdatedTable(settings, entries, logs, key, counted, log + [event]);
      entries := entries[key := counted];
      logs := logs[key := log + [event]];
      r := if counted.blockedUntil.Some? then Some(RemainingSeconds(now, counted.blockedUntil.value)) else None;
    }

    method MakeRoom(now: nat, incoming: string)
      requires Valid()
      modifies this`entries, this`logs
      ensures Valid()
      ensures MadeRoom(settings, old(entries), now, incoming, entries)
      ensures entries.Keys <= old(entries).Keys
      ensures forall key | key in entries :: entries[key] == old(entries)[key]
      ensures logs == Restricted(old(logs), entries.Keys)
      ensures incoming in entries || |entries| < Capacity()
    {
      if incoming in entries || |entries| < settings.maxKeys {
        assert logs == Restricted(logs, entries.Keys);
        return;
      }
      RetainedIsNotLarger(settings, entries, now);
      var kept := Retained(settings, entries, now);
      if |kept| >= settings.maxKeys && kept != map[] {
        var oldest := OldestKey(kept);
        kept := kept - {oldest};
      }
      SmallerTable(settings, entries, logs, kept);
      entries, logs := kept, Restricted(logs, kept.Keys);
    }

    method RecordSuccess(key: string)
      requires Valid()
      modifies this`entries, this`logs
      ensures Valid()
      ensures entries == old(entries) - {key} && logs == old(logs) - {key}
    {
      SmallerTable(settings, entries, logs, entries - {key});
      assert logs - {key} == Restricted(logs, (entries - {key}).Keys);
      SubsetIsNotLarger((entries - {key}).Keys, entries.Keys);
      entries, logs := entries - {key}, logs - {key};
    }
  }
}
