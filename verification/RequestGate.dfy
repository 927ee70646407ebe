/** Spacing requests to the metadata provider, and retrying them. Instants and delays are in milliseconds. */
module RequestGate {
  import opened Wrappers

  const MIN_INTERVAL: nat := 25
  const MAX_ATTEMPTS: nat := 3
  const RETRY_BASE_DELAY: nat := 250
  const RETRY_MAX_DELAY: nat := 30_000
  const U64_SIZE: nat := 0x1_0000_0000_0000_0000

  function Max(a: nat, b: nat): nat {
    if a < b then b else a
  }

  function Min(a: nat, b: nat): nat {
    if a < b then a else b
  }

  // ---- the gate as a machine: what happens to it under its lock, in any interleaving of requests ----

  datatype Event = Turn(now: nat) | Deferral(now: nat, delay: nat)

  function Scheduled(nextAt: nat, now: nat): nat {
    Max(nextAt, now)
  }

  function After(nextAt: nat, e: Event): nat {
    if e.Turn? then Scheduled(nextAt, e.now) + MIN_INTERVAL else Max(nextAt, e.now + e.delay)
  }

  function NextAt(start: nat, events: seq<Event>): nat {
    if events == [] then start else After(NextAt(start, events[..|events| - 1]), events[|events| - 1])
  }

  /** When the request of the turn at `i` is sent. */
  function SentAt(start: nat, events: seq<Event>, i: nat): nat
    requires i < |events| && events[i].Turn?
  {
    Scheduled(NextAt(start, events[..i]), events[i].now)
  }

  /** The earliest instant an event leaves for the requests after it. */
  function Leaves(start: nat, events: seq<Event>, i: nat): nat
    requires i < |events|
  {
    if events[i].Turn? then SentAt(start, events, i) + MIN_INTERVAL else events[i].now + events[i].delay
  }

  lemma {:induction false} NextAtIsLargest(start: nat, events: seq<Event>)
    ensures start <= NextAt(start, events)
    ensures forall i | 0 <= i < |events| :: Leaves(start, events, i) <= NextAt(start, events)
    ensures NextAt(start, events) == start
            || exists i | 0 <= i < |events| :: NextAt(start, events) == Leaves(start, events, i)
  {
    if events != [] {
      var n := |events| - 1;
      var init := events[..n];
      NextAtIsLargest(start, init);
      forall i | 0 <= i < n
        ensures Leaves(start, events, i) == Leaves(start, init, i)
      {
        assert events[..i] == init[..i];
      }
      if NextAt(start, events) == NextAt(start, init) && NextAt(start, init) != start {
        var i :| 0 <= i < |init| && NextAt(start, init) == Leaves(start, init, i);
        assert NextAt(start, events) == Leaves(start, events, i);
      } else if NextAt(start, events) != NextAt(start, init) {
        assert NextAt(start, events) == Leaves(start, events, n);
      }
    }
  }

  /**
   * Each request is sent no sooner than it asked, than 25 ms after every earlier one, and than every earlier
   * deferral allows, and it waits for nothing else.
   */
  lemma SentAsSoonAsAllowed(start: nat, events: seq<Event>, i: nat)
    requires i < |events| && events[i].Turn?
    ensures SentAt(start, events, i) >= events[i].now
    ensures forall j | 0 <= j < i && events[j].Turn? ::
        SentAt(start, events, i) >= SentAt(start, events, j) + MIN_INTERVAL
    ensures forall j | 0 <= j < i && events[j].Deferral? :: SentAt(start, events, i) >= events[j].now + events[j].delay
    ensures SentAt(start, events, i) == events[i].now || SentAt(start, events, i) == start
            || exists j | 0 <= j < i :: SentAt(start, events, i) == Leaves(start, events, j)
  {
    var before := events[..i];
    NextAtIsLargest(start, before);
    forall j | 0 <= j < i
      ensures Leaves(start, before, j) == Leaves(start, events, j) <= SentAt(start, events, i)
    {
      assert before[..j] == events[..j];
    }
    forall j | 0 <= j < i
      ensures events[j].Turn? ==> SentAt(start, events, i) >= SentAt(start, events, j) + MIN_INTERVAL
      ensures events[j].Deferral? ==> SentAt(start, events, i) >= events[j].now + events[j].delay
    {
      assert Leaves(start, events, j) <= SentAt(start, events, i);
    }
    if SentAt(start, events, i) != events[i].now && SentAt(start, events, i) != start {
      var j :| 0 <= j < |before| && NextAt(start, before) == Leaves(start, before, j);
      assert SentAt(start, events, i) == Leaves(start, events, j);
    }
  }

  function Turns(events: seq<Event>): nat {
    if events == [] then 0
    else Turns(events[..|events| - 1]) + (if events[|events| - 1].Turn? then 1 else 0)
  }

  /** Any stretch of a run with n turns takes the gate at least n intervals forward. */
  lemma {:induction false} TurnsTakeTime(start: nat, events: seq<Event>)
    ensures NextAt(start, events) >= start + MIN_INTERVAL * Turns(events)
  {
    if events != [] {
      TurnsTakeTime(start, events[..|events| - 1]);
    }
  }

  // ---- retries ----

  function Doubled(attempt: nat): nat {
    if attempt == 0 then 1 else 2 * Doubled(attempt - 1)
  }

  function Jitter(sequence: nat): nat {
    sequence % 101
  }

  function RetryDelayOf(attempt: nat, retryAfter: Option<nat>, sequence: nat): nat {
    if retryAfter.Some? then Min(retryAfter.value, RETRY_MAX_DELAY)
    else Min(Min(RETRY_BASE_DELAY * Doubled(Min(attempt, 6)), RETRY_MAX_DELAY) + Jitter(sequence), RETRY_MAX_DELAY)
  }

  /** The provider's own delay is respected up to 30 s; otherwise delays double from 250 ms with up to 100 ms more. */
  lemma RetryDelayBounds(attempt: nat, retryAfter: Option<nat>, sequence: nat)
    ensures RetryDelayOf(attempt, retryAfter, sequence) <= RETRY_MAX_DELAY
    ensures retryAfter.Some? ==>
              RetryDelayOf(attempt, retryAfter, sequence)
              == if retryAfter.value <= RETRY_MAX_DELAY then retryAfter.value else RETRY_MAX_DELAY
    ensures retryAfter.None? && attempt <= 6 ==>
              RetryDelayOf(attempt, None, sequence) == RETRY_BASE_DELAY * Doubled(attempt) + sequence % 101
  {
    assert Doubled(6) == 64 by {
      assert Doubled(3) == 8;
      assert Doubled(5) == 4 * Doubled(3);
    }
    DoubledGrows(Min(attempt, 6), 6);
  }

  lemma {:induction false} DoubledGrows(a: nat, b: nat)
    requires a <= b
    ensures Doubled(a) <= Doubled(b)
    decreases b - a
  {
    if a < b {
      DoubledGrows(a, b - 1);
    }
  }

  datatype Outcome =
    | Payload
    | RetryableStatus(retryAfter: Option<nat>)
    | OtherStatus
    | BodyFailure(transient: bool)
    | TransportFailure(transient: bool)

  predicate WorthRetrying(o: Outcome) {
    o.RetryableStatus? || ((o.BodyFailure? || o.TransportFailure?) && o.transient)
  }

  function RetryAfterOf(o: Outcome): Option<nat> {
    if o.RetryableStatus? then o.retryAfter else None
  }

  /** When an attempt asks for its turn, when its outcome is in, and what it is. */
  datatype Attempt = Attempt(asked: nat, answered: nat, outcome: Outcome)

  /** A failure that may pass: a status the provider asks to retry, or a transient error on the way. */
  ghost predicate MayPass(o: Outcome) {
    match o
    case Payload => false
    case OtherStatus => false
    case RetryableStatus(_) => true
    case BodyFailure(transient) => transient
    case TransportFailure(transient) => transient
  }

  /** The jitter counter at attempt `i`: it moves on with every delay the provider did not name. */
  ghost function SequenceAt(start: nat, attempts: seq<Attempt>, i: nat): nat
    requires i <= |attempts|
  {
    if i == 0 then start
    else
      var before := SequenceAt(start, attempts, i - 1);
      match attempts[i - 1].outcome
      case RetryableStatus(Some(_)) => before
      case _ => (before + 1) % U64_SIZE
  }

  /** When a retry is sent: no sooner than asked, than the interval and the delay allow, and not a moment later. */
  ghost predicate SentInTime(sent: nat, last: nat, failed: Attempt, now: Attempt, attempt: nat, sequence: nat) {
    var delay := match failed.outcome
                 case RetryableStatus(Some(delay)) => RetryDelayOf(attempt, Some(delay), sequence)
                 case _ => RetryDelayOf(attempt, None, sequence);
    && sent >= now.asked && sent >= last + MIN_INTERVAL && sent >= failed.answered + delay
    && (sent == now.asked || sent == last + MIN_INTERVAL || sent == failed.answered + delay)
  }

  /** The attempts sent so far, each in its time, of which all but the last may pass. */
  ghost predicate AreSent(sent: seq<nat>, attempts: seq<Attempt>, opensAt: nat, sequence: nat) {
    && 0 < |sent| <= |attempts|
    && sent[0] == Max(opensAt, attempts[0].asked)
    && (forall i | 0 <= i < |sent| - 1 :: MayPass(attempts[i].outcome))
    && forall i | 0 < i < |sent| ::
         SentInTime(sent[i], sent[i - 1], attempts[i - 1], attempts[i], i - 1, SequenceAt(sequence, attempts, i - 1))
  }

  lemma OneMoreSent(sent: seq<nat>, attempts: seq<Attempt>, opensAt: nat, sequence: nat, next: nat)
    requires AreSent(sent, attempts, opensAt, sequence) && |sent| < |attempts|
    requires MayPass(attempts[|sent| - 1].outcome)
    requires var failed, n := attempts[|sent| - 1], |sent| - 1;
             next == Max(Max(sent[n] + MIN_INTERVAL,
                             failed.answered + RetryDelayOf(n, RetryAfterOf(failed.outcome),
                                                            SequenceAt(sequence, attempts, n))),
                         attempts[|sent|].asked)
    ensures AreSent(sent + [next], attempts, opensAt, sequence)
  {
    var n := |sent| - 1;
    assert SentInTime(next, sent[n], attempts[n], attempts[n + 1], n, SequenceAt(sequence, attempts, n));
  }

  class TmdbRequestGate {
    var nextRequestAt: nat
    var retrySequence: nat

    constructor (now: nat)
      ensures nextRequestAt == now && retrySequence == 0
    {
      nextRequestAt, retrySequence := now, 0;
    }

    method WaitTurn(now: nat) returns (scheduled: nat)
      modifies this`nextRequestAt
      ensures scheduled == Scheduled(old(nextRequestAt), now)
      ensures nextRequestAt == After(old(nextRequestAt), Turn(now))
    {
      scheduled := if nextRequestAt < now then now else nextRequestAt;
      nextRequestAt := scheduled + MIN_INTERVAL;
    }

    method DeferFor(now: nat, delay: nat)
      modifies this`nextRequestAt
      ensures nextRequestAt == After(old(nextRequestAt), Deferral(now, delay))
    {
      if now + delay > nextRequestAt {
        nextRequestAt := now + delay;
      }
    }

    method RetryDelay(attempt: nat, retryAfter: Option<nat>) returns (delay: nat)
      modifies this`retrySequence
      ensures delay == RetryDelayOf(attempt, retryAfter, old(retrySequence))
      ensures retrySequence == if retryAfter.Some? then old(retrySequence) else (old(retrySequence) + 1) % U64_SIZE
    {
      if retryAfter.Some? {
        return Min(retryAfter.value, RETRY_MAX_DELAY);
      }
      var base := Min(RETRY_BASE_DELAY * Doubled(Min(attempt, 6)), RETRY_MAX_DELAY);
      var jitter := retrySequence % 101;
      retrySequence := (retrySequence + 1) % U64_SIZE;
      return Min(base + jitter, RETRY_MAX_DELAY);
    }

    method DeferRetry(a: Attempt, attempt: nat)
      modifies this
      ensures nextRequestAt == Max(old(nextRequestAt),
                                   a.answered + RetryDelayOf(attempt, RetryAfterOf(a.outcome), old(retrySequence)))
      ensures retrySequence ==
              if RetryAfterOf(a.outcome).Some? then old(retrySequence) else (old(retrySequence) + 1) % U64_SIZE
    {
      var delay := RetryDelay(attempt, RetryAfterOf(a.outcome));
      DeferFor(a.answered, delay);
    }

    /** Sends up to three times. `sent` lists when; the result is the outcome of the last attempt made. */
    method SendJson(attempts: seq<Attempt>) returns (result: Outcome, sent: seq<nat>)
      requires |attempts| == MAX_ATTEMPTS
      modifies this
      ensures 1 <= |sent| <= MAX_ATTEMPTS && AreSent(sent, attempts, old(nextRequestAt), old(retrySequence))
      ensures result == attempts[|sent| - 1].outcome
      ensures |sent| == MAX_ATTEMPTS || !MayPass(result)
      ensures nextRequestAt == sent[|sent| - 1] + MIN_INTERVAL
      ensures retrySequence == SequenceAt(old(retrySequence), attempts, |sent| - 1)
    {
      sent := [];
      var attempt := 0;
      ghost var opensAt, sequence := nextRequestAt, retrySequence;
      while attempt < MAX_ATTEMPTS
        invariant |sent| == attempt < MAX_ATTEMPTS
        invariant attempt == 0 ==> nextRequestAt == opensAt
        invariant attempt > 0 ==> AreSent(sent, attempts, opensAt, sequence) && MayPass(attempts[attempt - 1].outcome)
        invariant attempt > 0 ==>
          var failed := attempts[attempt - 1];
          nextRequestAt == Max(sent[attempt - 1] + MIN_INTERVAL,
                               failed.answered + RetryDelayOf(attempt - 1, RetryAfterOf(failed.outcome),
                                                              SequenceAt(sequence, attempts, attempt - 1)))
        invariant retrySequence == SequenceAt(sequence, attempts, attempt)
      {
        ghost var before := sent;
        var scheduled := WaitTurn(attempts[attempt].asked);
        sent := sent + [scheduled];
        result := attempts[attempt].outcome;
        if attempt > 0 {
          OneMoreSent(before, attempts, opensAt, sequence, scheduled);
        }
        if !WorthRetrying(result) || attempt + 1 == MAX_ATTEMPTS {
          return;
        }
        DeferRetry(attempts[attempt], attempt);
        attempt := attempt + 1;
      }
      assert false;
    }
  }
}
