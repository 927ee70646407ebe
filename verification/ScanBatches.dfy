/** What the scan messages of the dispatcher contain: everything a job reported since its last message. */
module ScanBatches {
  import opened RealtimeDispatcher
  import opened Wrappers

  lemma {:induction false} RunLast(s: DispatcherState, steps: seq<Step>, e: Step)
    ensures Run(s, steps + [e]) == Apply(Run(s, steps), e)
    decreases |steps|
  {
    if steps == [] {
      assert [e][1..] == [];
    } else {
      RunLast(Apply(s, steps[0]), steps[1..], e);
      assert (steps + [e])[1..] == steps[1..] + [e];
    }
  }

  /** An event no newer than the finish that the guard of its job remembers. */
  ghost predicate Ignored(s: DispatcherState, jobId: int, sequence: nat) {
    jobId in s.finishedScanJobs && sequence <= s.finishedScanJobs[jobId].sequence
  }

  /** The handled events of a job since it was last published or finished, oldest first. */
  ghost function SinceCleared(start: DispatcherState, steps: seq<Step>, jobId: int): seq<ScanJobEvent>
    decreases |steps|
  {
    if steps == [] then []
    else
      var before := steps[..|steps| - 1];
      var events := SinceCleared(start, before, jobId);
      match steps[|steps| - 1]
      case FlushScans(_, _) => []
      case ScanEvent(sequence, event, _) =>
        if event.JobId() != jobId || Ignored(Run(start, before), jobId, sequence) then events
        else if event.Checkpoint? || event.Finished? then []
        else events + [event]
      case _ => events
  }

  ghost predicate IsLastUpdate(events: seq<ScanJobEvent>, i: nat) {
    && i < |events| && events[i].Updated?
    && forall k | i < k < |events| :: !events[k].Updated?
  }

  ghost predicate Reports(event: ScanJobEvent, key: string) {
    event.ItemUpdated? && event.item.itemKey == key
  }

  ghost predicate IsLastReport(events: seq<ScanJobEvent>, i: nat, key: string) {
    && i < |events| && Reports(events[i], key)
    && forall k | i < k < |events| :: !Reports(events[k], key)
  }

  /** The snapshot is the last one that came, and there is one as soon as one came. */
  ghost predicate SnapshotIs(snapshot: Option<ScanUpdate>, events: seq<ScanJobEvent>) {
    && (snapshot.Some? <==> exists i | 0 <= i < |events| :: events[i].Updated?)
    && forall i: nat | IsLastUpdate(events, i) :: snapshot == Some(events[i].update)
  }

  /** The last version of an item that was reported, and nothing for one that was not. */
  ghost predicate ItemIs(items: map<string, ScanItem>, events: seq<ScanJobEvent>, key: string) {
    && (key in items <==> exists i | 0 <= i < |events| :: Reports(events[i], key))
    && forall i: nat | IsLastReport(events, i, key) :: key in items && items[key] == events[i].item
  }

  ghost predicate ItemsAre(items: map<string, ScanItem>, events: seq<ScanJobEvent>) {
    forall key :: ItemIs(items, events, key)
  }

  ghost predicate HoldsWhatCame(s: DispatcherState, jobId: int, events: seq<ScanJobEvent>) {
    && (jobId in s.pendingScans <==> events != [])
    && (jobId in s.pendingScans ==>
          SnapshotIs(s.pendingScans[jobId].scanJob, events) && ItemsAre(s.pendingScans[jobId].items, events))
  }

  // ---- one event ----

  lemma UpdateCame(snapshot: Option<ScanUpdate>, events: seq<ScanJobEvent>, update: ScanUpdate)
    ensures SnapshotIs(Some(update), events + [Updated(update)])
  {
    assert (events + [Updated(update)])[|events|] == Updated(update);
  }

  lemma NoUpdateCame(snapshot: Option<ScanUpdate>, events: seq<ScanJobEvent>, event: ScanJobEvent)
    requires SnapshotIs(snapshot, events) && !event.Updated?
    ensures SnapshotIs(snapshot, events + [event])
  {
    var longer := events + [event];
    assert forall i | 0 <= i < |events| :: longer[i] == events[i];
    forall i: nat | IsLastUpdate(longer, i)
      ensures snapshot == Some(longer[i].update)
    {
      assert IsLastUpdate(events, i) by {
        assert forall k | i < k < |events| :: longer[k] == events[k];
      }
    }
  }

  lemma ReportCame(items: map<string, ScanItem>, events: seq<ScanJobEvent>, item: ScanItem, key: string)
    requires ItemIs(items, events, key)
    ensures ItemIs(items[item.itemKey := item], events + [ItemUpdated(item)], key)
  {
    var longer := events + [ItemUpdated(item)];
    assert longer[|events|] == ItemUpdated(item);
    if item.itemKey != key {
      NoReportCame(items, events, ItemUpdated(item), key);
    }
  }

  lemma NoReportCame(items: map<string, ScanItem>, events: seq<ScanJobEvent>, event: ScanJobEvent, key: string)
    requires ItemIs(items, events, key) && !Reports(event, key)
    ensures ItemIs(items, events + [event], key)
  {
    var longer := events + [event];
    assert forall i | 0 <= i < |events| :: longer[i] == events[i];
    forall i: nat | IsLastReport(longer, i, key)
      ensures key in items && items[key] == longer[i].item
    {
      assert IsLastReport(events, i, key) by {
        assert forall k | i < k < |events| :: longer[k] == events[k];
      }
    }
  }

  /** The batch a handled event leaves behind, when it is neither a checkpoint nor a finish. */
  lemma BatchAfter(s: DispatcherState, events: seq<ScanJobEvent>, sequence: nat, event: ScanJobEvent, now: int)
    requires HoldsWhatCame(s, event.JobId(), events) && !Ignored(s, event.JobId(), sequence)
    requires event.Updated? || event.ItemUpdated?
    ensures HoldsWhatCame(Apply(s, ScanEvent(sequence, event, now)), event.JobId(), events + [event])
  {
    var batch := BatchOf(s, event.JobId());
    assert SnapshotIs(batch.scanJob, events) && ItemsAre(batch.items, events);
    if event.Updated? {
      UpdateCame(batch.scanJob, events, event.update);
    } else {
      NoUpdateCame(batch.scanJob, events, event);
    }
    var items := if event.Updated? then batch.items else batch.items[event.item.itemKey := event.item];
    forall key
      ensures ItemIs(items, events + [event], key)
    {
      assert ItemIs(batch.items, events, key);
      if event.Updated? {
        NoReportCame(batch.items, events, event, key);
      } else {
        ReportCame(batch.items, events, event.item, key);
      }
    }
  }

  lemma OtherBatchKept(s: DispatcherState, e: Step, jobId: int)
    requires !e.FlushScans?
    requires e.ScanEvent? ==> e.event.JobId() != jobId || Ignored(s, jobId, e.sequence)
    ensures var t := Apply(s, e);
      && (jobId in t.pendingScans <==> jobId in s.pendingScans)
      && (jobId in s.pendingScans ==> t.pendingScans[jobId] == s.pendingScans[jobId])
  {
  }

  /**
   * In every run, the batch of a job holds the last snapshot and the last version of every item that came since the job
   * was last published or finished.
   */
  lemma {:induction false} BatchHoldsWhatCame(start: DispatcherState, steps: seq<Step>, jobId: int)
    requires Start(start)
    ensures HoldsWhatCame(Run(start, steps), jobId, SinceCleared(start, steps, jobId))
    decreases |steps|
  {
    if steps != [] {
      var before, last := steps[..|steps| - 1], steps[|steps| - 1];
      BatchHoldsWhatCame(start, before, jobId);
      RunLast(start, before, last);
      assert steps == before + [last];
      var s, events := Run(start, before), SinceCleared(start, before, jobId);
      if last.ScanEvent? && last.event.JobId() == jobId && !Ignored(s, jobId, last.sequence) {
        if last.event.Updated? || last.event.ItemUpdated? {
          BatchAfter(s, events, last.sequence, last.event, last.now);
        }
      } else if !last.FlushScans? {
        OtherBatchKept(s, last, jobId);
      }
    }
  }

  // ---- what is published ----

  /** A tick publishes exactly the batches it can name: with their own snapshot, or with the one the database has. */
  lemma TickPublishesEveryBatch(s: DispatcherState, now: int, jobs: map<int, ScanUpdate>, o: Output)
    ensures var t := Apply(s, FlushScans(now, jobs));
      && |t.published| == |s.published| + 1 && t.pendingScans == map[]
      && (o in t.published[|s.published|] <==>
          exists j | j in s.pendingScans ::
            if s.pendingScans[j].scanJob.Some?
            then o == ScanProgress(j, s.pendingScans[j].scanJob.value, s.pendingScans[j].items)
            else j in jobs && o == ScanProgress(j, jobs[j], s.pendingScans[j].items))
  {
    var outputs := Apply(s, FlushScans(now, jobs)).published[|s.published|];
    if j :| j in s.pendingScans && ProgressOf(s.pendingScans[j], j, jobs) == Some(o) {
      assert o in outputs;
    }
  }

  /** A handled checkpoint or finish publishes its own snapshot with the items collected; nothing else is published. */
  lemma EventPublishes(s: DispatcherState, sequence: nat, event: ScanJobEvent, now: int)
    ensures var job, t := event.JobId(), Apply(s, ScanEvent(sequence, event, now));
      var items := if job in s.pendingScans then s.pendingScans[job].items else map[];
      && |t.published| == |s.published| + 1
      && t.published[|s.published|] ==
         (if Ignored(s, job, sequence) then {}
          else if event.Checkpoint? then {ScanProgress(job, event.update, items)}
          else if event.Finished? then {ScanFinished(job, event.update, items)}
          else {})
      && (Ignored(s, job, sequence) ==> t == s.(published := t.published))
  {
  }

  lemma {:induction false} OneOutputPerStep(start: DispatcherState, steps: seq<Step>)
    ensures |Run(start, steps).published| == |start.published| + |steps|
    decreases |steps|
  {
    if steps != [] {
      EveryStepPublishesOnce(start, steps[0]);
      OneOutputPerStep(Apply(start, steps[0]), steps[1..]);
    }
  }

  /** The message that empties a batch. */
  ghost predicate Publishes(o: Output, jobId: int, e: Step, events: seq<ScanJobEvent>) {
    && (o.ScanProgress? || o.ScanFinished?) && o.jobId == jobId && ItemsAre(o.items, events)
    && (e.ScanEvent? ==>
          !e.event.ItemUpdated? && o.update == e.event.update && (o.ScanFinished? <==> e.event.Finished?))
    && (e.FlushScans? ==>
          && o.ScanProgress?
          && (if exists i | 0 <= i < |events| :: events[i].Updated? then SnapshotIs(Some(o.update), events)
              else jobId in e.jobs && o.update == e.jobs[jobId]))
  }

  /**
   * Nothing a job reports is lost: the step that empties its batch publishes, in one message of the job, the last
   * version of every item that came since, under the last snapshot, or the one the database has when none came.
   */
  lemma WhatCameIsPublished(start: DispatcherState, steps: seq<Step>, e: Step, jobId: int) returns (o: Output)
    requires Start(start)
    requires SinceCleared(start, steps, jobId) != [] && SinceCleared(start, steps + [e], jobId) == []
    requires var events := SinceCleared(start, steps, jobId);
      e.FlushScans? ==> jobId in e.jobs || exists i | 0 <= i < |events| :: events[i].Updated?
    ensures |Run(start, steps + [e]).published| == |steps| + 1
    ensures o in Run(start, steps + [e]).published[|steps|]
    ensures Publishes(o, jobId, e, SinceCleared(start, steps, jobId))
  {
    assert (steps + [e])[..|steps|] == steps;
    BatchHoldsWhatCame(start, steps, jobId);
    RunLast(start, steps, e);
    OneOutputPerStep(start, steps);
    var s := Run(start, steps);
    var batch := s.pendingScans[jobId];
    if e.FlushScans? {
      o := ScanProgress(jobId, if batch.scanJob.Some? then batch.scanJob.value else e.jobs[jobId], batch.items);
      TickPublishesEveryBatch(s, e.now, e.jobs, o);
    } else {
      EventPublishes(s, e.sequence, e.event, e.now);
      o := if e.event.Finished? then ScanFinished(jobId, e.event.update, batch.items)
           else ScanProgress(jobId, e.event.update, batch.items);
    }
  }
}
