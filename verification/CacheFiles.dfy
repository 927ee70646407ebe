/** Publishing cache files: written beside their destination, then renamed over it. */
module CacheFiles {
  type Path = string
  type Bytes = seq<int>

  datatype Phase = Begun | Writing | Written | Published | Abandoned(removed: bool)

  datatype Writer = Writer(temporary: Path, destination: Path, payload: Bytes, phase: Phase)

  datatype World = World(disk: map<Path, Bytes>, writers: map<nat, Writer>)

  /**
   * Any task may fail, or be dropped, before each of its steps; a removal may fail too. `Finish` is the write reporting
   * success, which it does only when everything is written.
   */
  datatype Event =
    | Begin(id: nat, temporary: Path, destination: Path, payload: Bytes)
    | Create(id: nat)
    | Append(id: nat, length: nat)
    | Finish(id: nat)
    | Commit(id: nat)
    | Abandon(id: nat, removed: bool)

  predicate IsTemporary(w: World, path: Path) {
    exists id | id in w.writers :: w.writers[id].temporary == path
  }

  predicate IsDestination(w: World, path: Path) {
    exists id | id in w.writers :: w.writers[id].destination == path
  }

  predicate InPhase(w: World, id: nat, phase: Phase) {
    id in w.writers && w.writers[id].phase == phase
  }

  predicate Enabled(w: World, e: Event) {
    match e
    case Begin(id, temporary, destination, payload) =>
      && id !in w.writers && payload != []
      && temporary != destination && temporary !in w.disk
      && !IsTemporary(w, temporary) && !IsDestination(w, temporary) && !IsTemporary(w, destination)
    case Create(id) => InPhase(w, id, Begun)
    case Append(id, length) =>
      InPhase(w, id, Writing) && w.writers[id].temporary in w.disk
      && |w.disk[w.writers[id].temporary]| < length <= |w.writers[id].payload|
    case Finish(id) =>
      InPhase(w, id, Writing) && w.writers[id].temporary in w.disk
      && |w.disk[w.writers[id].temporary]| == |w.writers[id].payload|
    case Commit(id) =>
      // publishing checks only that the temporary file is there and not empty
      InPhase(w, id, Written) && w.writers[id].temporary in w.disk && w.disk[w.writers[id].temporary] != []
    case Abandon(id, removed) => InPhase(w, id, Begun) || InPhase(w, id, Writing) || InPhase(w, id, Written)
  }

  function Apply(w: World, e: Event): World
    requires Enabled(w, e)
  {
    match e
    case Begin(id, temporary, destination, payload) =>
      w.(writers := w.writers[id := Writer(temporary, destination, payload, Begun)])
    case Create(id) =>
      var me := w.writers[id];
      World(w.disk[me.temporary := []], w.writers[id := me.(phase := Writing)])
    case Append(id, length) =>
      var me := w.writers[id];
      w.(disk := w.disk[me.temporary := me.payload[..length]])
    case Finish(id) => w.(writers := w.writers[id := w.writers[id].(phase := Written)])
    case Commit(id) =>
      var me := w.writers[id];
      World((w.disk - {me.temporary})[me.destination := w.disk[me.temporary]], w.writers[id := me.(phase := Published)])
    case Abandon(id, removed) =>
      var me := w.writers[id];
      World(if removed then w.disk - {me.temporary} else w.disk, w.writers[id := me.(phase := Abandoned(removed))])
  }

  function After(start: World, events: seq<Event>): World
    requires IsRun(start, events)
    decreases |events|, 1
  {
    if events == [] then start else Apply(After(start, events[..|events| - 1]), events[|events| - 1])
  }

  predicate IsRun(start: World, events: seq<Event>)
    decreases |events|, 0
  {
    events == []
    || (IsRun(start, events[..|events| - 1])
        && Enabled(After(start, events[..|events| - 1]), events[|events| - 1]))
  }

  // ---- what holds throughout ----

  ghost predicate WriterOk(w: World, id: nat)
    requires id in w.writers
  {
    var me := w.writers[id];
    && me.payload != [] && me.temporary != me.destination
    && (me.phase == Begun || me.phase == Published || me.phase == Abandoned(true) ==> me.temporary !in w.disk)
    && (me.phase == Written ==> me.temporary in w.disk && w.disk[me.temporary] == me.payload)
    && (me.temporary in w.disk ==> w.disk[me.temporary] <= me.payload)
    && forall other | other in w.writers ::
         && (other != id ==> w.writers[other].temporary != me.temporary)
         && w.writers[other].destination != me.temporary
  }

  /** A file is what it was at the start, or the whole payload of a writer that published it. */
  ghost predicate FileOk(w: World, start: map<Path, Bytes>, path: Path) {
    || IsTemporary(w, path)
    || (path in w.disk && path in start && w.disk[path] == start[path])
    || (path !in w.disk && path !in start)
    || (path in w.disk && exists id | id in w.writers ::
          w.writers[id].phase == Published && w.writers[id].destination == path
              && w.writers[id].payload == w.disk[path])
  }

  ghost predicate Inv(w: World, start: map<Path, Bytes>) {
    && (forall id | id in w.writers :: WriterOk(w, id))
    && (forall path :: FileOk(w, start, path))
  }

  lemma WritersStayOk(w: World, e: Event, id: nat)
    requires Enabled(w, e) && (forall id | id in w.writers :: WriterOk(w, id))
    requires id in Apply(w, e).writers
    ensures WriterOk(Apply(w, e), id)
  {
    assert e.id in w.writers ==> WriterOk(w, e.id);
    if id in w.writers {
      assert WriterOk(w, id);
    }
  }

  lemma TemporaryStays(w: World, e: Event, path: Path)
    requires Enabled(w, e) && IsTemporary(w, path)
    ensures IsTemporary(Apply(w, e), path)
  {
    var id :| id in w.writers && w.writers[id].temporary == path;
    assert id in Apply(w, e).writers && Apply(w, e).writers[id].temporary == path;
  }

  lemma KeptPublished(w: World, e: Event, path: Path)
    requires Enabled(w, e)
    ensures forall id | id in w.writers && w.writers[id].phase == Published ::
              id in Apply(w, e).writers && Apply(w, e).writers[id] == w.writers[id]
  {
  }

  /** A step touches the temporary file of its writer, and the destination when it publishes. */
  lemma OtherFilesStay(w: World, e: Event, path: Path)
    requires Enabled(w, e) && !IsTemporary(w, path)
    requires e.Commit? ==> w.writers[e.id].destination != path
    ensures path in Apply(w, e).disk <==> path in w.disk
    ensures path in w.disk ==> Apply(w, e).disk[path] == w.disk[path]
  {
  }

  lemma FilesStayOk(w: World, e: Event, start: map<Path, Bytes>, path: Path)
    requires Enabled(w, e) && (forall id | id in w.writers :: WriterOk(w, id))
    requires FileOk(w, start, path)
    ensures FileOk(Apply(w, e), start, path)
  {
    var t := Apply(w, e);
    if IsTemporary(w, path) {
      TemporaryStays(w, e, path);
    } else if e.Commit? && w.writers[e.id].destination == path {
      assert WriterOk(w, e.id);
      assert t.writers[e.id].phase == Published && t.writers[e.id].payload == t.disk[path];
    } else {
      KeptPublished(w, e, path);
      OtherFilesStay(w, e, path);
    }
  }

  lemma {:induction false} RunKeepsInv(start: map<Path, Bytes>, events: seq<Event>)
    requires IsRun(World(start, map[]), events)
    ensures Inv(After(World(start, map[]), events), start)
  {
    if events != [] {
      var init, last := events[..|events| - 1], events[|events| - 1];
      RunKeepsInv(start, init);
      var w := After(World(start, map[]), init);
      forall id | id in Apply(w, last).writers
        ensures WriterOk(Apply(w, last), id)
      {
        WritersStayOk(w, last, id);
      }
      forall path
        ensures FileOk(Apply(w, last), start, path)
      {
        FilesStayOk(w, last, start, path);
      }
    }
  }

  /** However writers interleave and wherever they stop, no reader of a destination sees part of a payload. */
  lemma DestinationsAreWhole(start: map<Path, Bytes>, events: seq<Event>, path: Path)
    requires IsRun(World(start, map[]), events)
    requires IsDestination(After(World(start, map[]), events), path)
    ensures var w := After(World(start, map[]), events);
            && (path !in w.disk ==> path !in start)
            && (path in w.disk ==>
                  || (path in start && w.disk[path] == start[path])
                  || exists id | id in w.writers ::
                       w.writers[id].phase == Published && w.writers[id].destination == path
                       && w.writers[id].payload == w.disk[path])
  {
    RunKeepsInv(start, events);
    var w := After(World(start, map[]), events);
    var id :| id in w.writers && w.writers[id].destination == path;
    forall other | other in w.writers
      ensures w.writers[other].temporary != path
    {
      assert WriterOk(w, other);
    }
    assert FileOk(w, start, path);
  }

  /** Publishing puts the whole payload at the destination, takes the temporary file away, and touches nothing else. */
  lemma PublishReplacesOnlyTheDestination(start: map<Path, Bytes>, events: seq<Event>, id: nat)
    requires IsRun(World(start, map[]), events) && Enabled(After(World(start, map[]), events), Commit(id))
    ensures var w := After(World(start, map[]), events);
            var me, after := w.writers[id], Apply(w, Commit(id));
            && after.disk == (w.disk - {me.temporary})[me.destination := me.payload]
            && after.writers == w.writers[id := me.(phase := Published)]
  {
    RunKeepsInv(start, events);
    assert WriterOk(After(World(start, map[]), events), id);
  }

  /** A write that ended has left no temporary file, unless it failed and the removal failed too. */
  lemma EndedWriteLeavesNoTemporary(start: map<Path, Bytes>, events: seq<Event>, id: nat)
    requires IsRun(World(start, map[]), events)
    requires InPhase(After(World(start, map[]), events), id, Published)
             || InPhase(After(World(start, map[]), events), id, Abandoned(true))
    ensures After(World(start, map[]), events).writers[id].temporary !in After(World(start, map[]), events).disk
  {
    RunKeepsInv(start, events);
    assert WriterOk(After(World(start, map[]), events), id);
  }

  /** The steps of one write in order; `failsAt` is the first that fails, 5 when none does. */
  method WriteAtomically(disk: map<Path, Bytes>, temporary: Path, destination: Path, payload: Bytes, failsAt: nat,
                         written: nat, removes: bool)
    returns (after: map<Path, Bytes>, ok: bool)
    requires temporary != destination && temporary !in disk && written <= |payload|
    ensures ok <==> payload != [] && failsAt >= 5
    ensures ok ==> after == disk[destination := payload]
    ensures !ok ==> after - {temporary} == disk && (removes ==> after == disk)
  {
    after, ok := disk, false;
    if payload == [] {
      return;
    }
    var armed := true;
    if failsAt > 0 {
      after := after[temporary := []];
      after := after[temporary := if failsAt > 1 then payload else payload[..written]];
      // flushing, syncing and checking the size may fail, then the rename
      if failsAt >= 5 {
        after := (after - {temporary})[destination := after[temporary]];
        ok, armed := true, false;
      }
    }
    if armed && removes {
      after := after - {temporary};
    }
  }
}
