/** Which libraries are being scanned or deleted in this process, and which directories were just inspected. */
module ScanRegistry {
  import opened Wrappers

  // ---- the registry under interleaving ----

  type Handle = nat

  datatype Scan = Scan(libraryId: int, scanJobId: int)

  /** Finishing takes two steps: the scan leaves the table under the lock, then its flag is set. */
  datatype State = State(
    active: map<int, Handle>, deleting: set<int>, guards: multiset<int>,
    scans: seq<Scan>, leaving: set<Handle>, finished: set<Handle>)

  datatype Event =
    | BeginDelete(libraryId: int)
    | DropGuard(libraryId: int)
    | Register(libraryId: int, scanJobId: int)
    | Remove(libraryId: int, scanJobId: int)
    | MarkFinished(handle: Handle)

  const START: State := State(map[], {}, multiset{}, [], {}, {})

  predicate Enabled(s: State, e: Event) {
    match e
    case DropGuard(l) => l in s.guards
    case MarkFinished(h) => h in s.leaving
    case _ => true
  }

  predicate IsJob(s: State, l: int, job: int) {
    l in s.active && s.active[l] < |s.scans| && s.scans[s.active[l]].scanJobId == job
  }

  function Apply(s: State, e: Event): State {
    match e
    case BeginDelete(l) => if l in s.deleting then s
        else s.(deleting := s.deleting + {l}, guards := s.guards + multiset{l})
    case DropGuard(l) => s.(deleting := s.deleting - {l}, guards := s.guards - multiset{l})
    case Register(l, job) =>
      if l in s.deleting || l in s.active then s
      else s.(active := s.active[l := |s.scans|], scans := s.scans + [Scan(l, job)])
    case Remove(l, job) =>
      if IsJob(s, l, job) then s.(active := s.active - {l}, leaving := s.leaving + {s.active[l]}) else s
    case MarkFinished(h) => s.(leaving := s.leaving - {h}, finished := s.finished + {h})
  }

  ghost predicate HandleOk(s: State, h: Handle) {
    && (h in s.leaving ==> h !in s.finished)
    && (h in s.leaving || h in s.finished ==> h < |s.scans|)
    && (h < |s.scans| ==>
          (h !in s.leaving && h !in s.finished <==>
              s.scans[h].libraryId in s.active && s.active[s.scans[h].libraryId] == h))
  }

  ghost predicate Inv(s: State) {
    && (forall l | l in s.active :: s.active[l] < |s.scans| && s.scans[s.active[l]].libraryId == l)
    && (forall h :: HandleOk(s, h))
    && (forall l :: s.guards[l] == if l in s.deleting then 1 else 0)
  }

  lemma ApplyKeepsInv(s: State, e: Event)
    requires Inv(s) && Enabled(s, e)
    ensures Inv(Apply(s, e))
  {
    var t := Apply(s, e);
    forall h
      ensures HandleOk(t, h)
    {
      assert HandleOk(s, h);
      if e.Remove? && IsJob(s, e.libraryId, e.scanJobId) {
        assert HandleOk(s, s.active[e.libraryId]);
      }
    }
  }

  /** The next handle is new: nothing is known of it yet. */
  lemma NextHandleIsUnfinished(s: State)
    requires Inv(s)
    ensures |s.scans| !in s.finished && |s.scans| !in s.leaving
  {
    assert HandleOk(s, |s.scans|);
  }

  function From(s: State, events: seq<Event>): State {
    if events == [] then s else Apply(From(s, events[..|events| - 1]), events[|events| - 1])
  }

  function After(events: seq<Event>): State {
    From(START, events)
  }

  ghost predicate IsRun(events: seq<Event>) {
    forall i | 0 <= i < |events| :: Enabled(After(events[..i]), events[i])
  }

  lemma {:induction false} RunKeepsInv(events: seq<Event>)
    requires IsRun(events)
    ensures Inv(After(events))
  {
    if events != [] {
      var init := events[..|events| - 1];
      forall i | 0 <= i < |init|
        ensures Enabled(After(init[..i]), init[i])
      {
        assert init[..i] == events[..i];
      }
      RunKeepsInv(init);
      ApplyKeepsInv(After(init), events[|events| - 1]);
    }
  }

  /** Two scans of one library are never both on: of two handles, all but one have left or finished. */
  lemma OneActiveScanPerLibrary(events: seq<Event>, a: Handle, b: Handle)
    requires IsRun(events)
    requires a < |After(events).scans| && b < |After(events).scans|
    requires After(events).scans[a].libraryId == After(events).scans[b].libraryId
    ensures a == b || a in After(events).leaving + After(events).finished
        || b in After(events).leaving + After(events).finished
  {
    RunKeepsInv(events);
    assert HandleOk(After(events), a) && HandleOk(After(events), b);
  }

  /** Every handle is in exactly one place: registered, on its way out, or finished. */
  lemma HandlesAreAccountedFor(events: seq<Event>, h: Handle)
    requires IsRun(events) && h < |After(events).scans|
    ensures var s := After(events);
            var registered := s.scans[h].libraryId in s.active && s.active[s.scans[h].libraryId] == h;
            && (registered || h in s.leaving || h in s.finished)
            && !(registered && h in s.leaving) && !(registered && h in s.finished) && !(h in s.leaving
                && h in s.finished)
  {
    RunKeepsInv(events);
    assert HandleOk(After(events), h);
  }

  ghost predicate GuardLives(s: State, more: seq<Event>, l: int) {
    l in s.guards && forall i | 0 <= i < |more| :: more[i] != DropGuard(l)
  }

  /** While a delete guard lives, no scan of its library is registered, and one that ends is not replaced. */
  lemma {:induction false} NoScanStartsDuringDeletion(s: State, more: seq<Event>, l: int)
    requires Inv(s) && GuardLives(s, more, l)
    requires forall i | 0 <= i < |more| :: Enabled(From(s, more[..i]), more[i])
    ensures Inv(From(s, more)) && l in From(s, more).deleting && l in From(s, more).guards
    ensures |s.scans| <= |From(s, more).scans|
    ensures forall h | |s.scans| <= h < |From(s, more).scans| :: From(s, more).scans[h].libraryId != l
    ensures l in From(s, more).active ==> l in s.active && From(s, more).active[l] == s.active[l]
  {
    if more != [] {
      var init := more[..|more| - 1];
      forall i | 0 <= i < |init|
        ensures Enabled(From(s, init[..i]), init[i])
      {
        assert init[..i] == more[..i];
      }
      NoScanStartsDuringDeletion(s, init, l);
      assert more[..|more| - 1] == init;
      ApplyKeepsInv(From(s, init), more[|more| - 1]);
    }
  }

  /** A finish that names another job, or an idle library, changes nothing. */
  lemma ForeignFinishChangesNothing(events: seq<Event>, l: int, job: int)
    requires IsRun(events)
    requires l in After(events).active ==> forall h | h < |After(events).scans| && After(events).active[l] == h ::
               After(events).scans[h].scanJobId != job
    ensures Apply(After(events), Remove(l, job)) == After(events)
  {
    RunKeepsInv(events);
  }

  // ---- the registry, one call at a time ----

  /** The shared flags of one scan: everyone who holds the handle sees them change. */
  class ActiveScan {
    const libraryId: int
    const scanJobId: int
    var cancelled: bool
    var finished: bool

    constructor (libraryId: int, scanJobId: int)
      ensures this.libraryId == libraryId && this.scanJobId == scanJobId && !cancelled && !finished
    {
      this.libraryId, this.scanJobId := libraryId, scanJobId;
      cancelled, finished := false, false;
    }

    method Cancel()
      modifies this`cancelled
      ensures cancelled
    {
      cancelled := true;
    }
  }

  /** The flags and names of a handle are those of its number in the machine. */
  ghost predicate Mirrors(scan: ActiveScan, s: State, h: Handle)
    reads scan
    requires h < |s.scans|
  {
    s.scans[h] == Scan(scan.libraryId, scan.scanJobId) && (scan.finished <==> h in s.finished)
  }

  datatype RegisterError = DeleteInProgress | AlreadyRunning

  class Registry {
    var active: map<int, ActiveScan>
    var deleting: set<int>
    /** Every handle given out so far, in order, and the state of the machine that this object is in. */
    ghost var issued: seq<ActiveScan>
    ghost var state: State

    ghost predicate Valid()
      reads this, issued
    {
      && Inv(state) && state.leaving == {}
      && active.Keys == state.active.Keys && deleting == state.deleting
      && |issued| == |state.scans|
      && (forall l | l in active :: active[l] == issued[state.active[l]])
      && (forall h | 0 <= h < |issued| :: Mirrors(issued[h], state, h))
      && forall g, h | 0 <= g < h < |issued| :: issued[g] != issued[h]
    }

    constructor ()
      ensures Valid() && state == START && active == map[] && deleting == {} && issued == []
    {
      active, deleting, issued, state := map[], {}, [], START;
    }

    method BeginDelete(libraryId: int) returns (started: bool)
      requires Valid()
      modifies this`deleting, this`state
      ensures Valid() && state == Apply(old(state), Event.BeginDelete(libraryId))
      ensures started == (libraryId !in old(deleting))
      ensures deleting == old(deleting) + {libraryId}
    {
      ApplyKeepsInv(state, Event.BeginDelete(libraryId));
      started := libraryId !in deleting;
      deleting := deleting + {libraryId};
      state := Apply(state, Event.BeginDelete(libraryId));
    }

    /** Called when the guard of a deletion is dropped. */
    method EndDelete(libraryId: int)
      requires Valid() && libraryId in state.guards
      modifies this`deleting, this`state
      ensures Valid() && state == Apply(old(state), DropGuard(libraryId))
      ensures deleting == old(deleting) - {libraryId}
    {
      ApplyKeepsInv(state, DropGuard(libraryId));
      deleting := deleting - {libraryId};
      state := Apply(state, DropGuard(libraryId));
    }

    /** Refused while the library is being deleted or scanned; otherwise the one unfinished handle of the library. */
    method RegisterScan(libraryId: int, scanJobId: int) returns (r: Result<ActiveScan, RegisterError>)
      requires Valid()
      modifies this`active, this`issued, this`state
      ensures Valid() && state == Apply(old(state), Register(libraryId, scanJobId))
      ensures if libraryId in deleting then r == Err(DeleteInProgress)
              else if libraryId in old(active) then r == Err(AlreadyRunning)
              else r.Ok? && fresh(r.value) && r.value.libraryId == libraryId && r.value.scanJobId == scanJobId
                   && !r.value.finished && !r.value.cancelled
                   && active == old(active)[libraryId := r.value] && issued == old(issued) + [r.value]
      ensures r.Err? ==> active == old(active) && issued == old(issued)
    {
      ApplyKeepsInv(state, Register(libraryId, scanJobId));
      if libraryId in deleting {
        return Err(DeleteInProgress);
      }
      if libraryId in active {
        return Err(AlreadyRunning);
      }
      var scan := new ActiveScan(libraryId, scanJobId);
      assert scan !in issued;
      NextHandleIsUnfinished(state);
      active := active[libraryId := scan];
      issued := issued + [scan];
      state := Apply(state, Register(libraryId, scanJobId));
      return Ok(scan);
    }

    /** The handle of the running scan is the one registration gave out, flags and all. */
    method ActiveScanOf(libraryId: int) returns (r: Option<ActiveScan>)
      requires Valid()
      ensures if libraryId in active then r == Some(active[libraryId]) && !r.value.finished
              else r == None && forall h | h in issued && h.libraryId == libraryId :: h.finished
    {
      forall h | 0 <= h < |issued|
        ensures issued[h].finished <==>
                !(issued[h].libraryId in state.active && state.active[issued[h].libraryId] == h)
      {
        assert HandleOk(state, h) && Mirrors(issued[h], state, h);
      }
      r := if libraryId in active then Some(active[libraryId]) else None;
    }

    /** Finishes the running scan if it is that job's, and changes nothing otherwise. */
    method FinishScan(libraryId: int, scanJobId: int)
      requires Valid()
      modifies this`active, this`state, issued`finished
      ensures Valid() && issued == old(issued)
      ensures var finishes := libraryId in old(active) && old(active)[libraryId].scanJobId == scanJobId;
              && active == (if finishes then old(active) - {libraryId} else old(active))
              && (forall h | h in issued ::
                   h.finished == (old(h.finished) || (finishes && h == old(active)[libraryId])))
              && state ==
                 if finishes then Apply(Apply(old(state), Remove(libraryId, scanJobId)),
                     MarkFinished(old(state).active[libraryId]))
                 else Apply(old(state), Remove(libraryId, scanJobId))
    {
      ApplyKeepsInv(state, Remove(libraryId, scanJobId));
      if libraryId in active && active[libraryId].scanJobId == scanJobId {
        var scan := active[libraryId];
        ghost var handle := state.active[libraryId];
        ApplyKeepsInv(Apply(state, Remove(libraryId, scanJobId)), MarkFinished(handle));
        active := active - {libraryId};
        state := Apply(Apply(state, Remove(libraryId, scanJobId)), MarkFinished(handle));
        scan.finished := true;
      } else {
        state := Apply(state, Remove(libraryId, scanJobId));
      }
    }
  }

  // ---- inspections ----

  const COOLDOWN_SECONDS: nat := 600

  type Directory = (int, string)

  /**
   * The request at `i` is over its cooldown: some request from it on read a clock that far ahead. Requests read the
   * clock before they wait for the table, so the instants of `requests` need not ascend.
   */
  ghost predicate CooledDown(requests: seq<nat>, i: nat) {
    exists k | i <= k < |requests| :: requests[k] >= requests[i] + COOLDOWN_SECONDS
  }

  /** Never admitted, or the request that admitted it last is over its cooldown. */
  ghost predicate MayBeAdmitted(requests: seq<nat>, admittedBy: map<Directory, nat>, d: Directory) {
    d in admittedBy ==> CooledDown(requests, admittedBy[d])
  }

  /** The directories a request gets through: once each, in order. */
  ghost function AdmittedOf(requests: seq<nat>, admittedBy: map<Directory, nat>, libraryId: int,
                            directories: seq<string>): seq<string> {
    if directories == [] then []
    else
      var before := AdmittedOf(requests, admittedBy, libraryId, directories[..|directories| - 1]);
      var last := directories[|directories| - 1];
      if MayBeAdmitted(requests, admittedBy, (libraryId, last)) && last !in before then before + [last] else before
  }

  lemma {:induction false} AdmittedExactly(requests: seq<nat>, admittedBy: map<Directory, nat>, libraryId: int,
                                           directories: seq<string>)
    ensures var admitted := AdmittedOf(requests, admittedBy, libraryId, directories);
            && (forall d :: d in admitted <==>
                  d in directories && MayBeAdmitted(requests, admittedBy, (libraryId, d)))
            && (forall i, j | 0 <= i < j < |admitted| :: admitted[i] != admitted[j])
  {
    if directories != [] {
      AdmittedExactly(requests, admittedBy, libraryId, directories[..|directories| - 1]);
      assert directories == directories[..|directories| - 1] + [directories[|directories| - 1]];
    }
  }

  /** The rule as it is documented: nothing admitted within the cooldown before the last request. */
  ghost predicate IsPastCooldown(requests: seq<nat>, admittedBy: map<Directory, nat>, d: Directory)
    requires requests != [] && (d in admittedBy ==> admittedBy[d] < |requests|)
  {
    d in admittedBy ==> requests[|requests| - 1] - requests[admittedBy[d]] >= COOLDOWN_SECONDS
  }

  /** Another request since then read a clock past the cooldown, but came to the table earlier than the last one. */
  ghost predicate Overtaken(requests: seq<nat>, i: nat)
    requires i < |requests|
  {
    && requests[|requests| - 1] < requests[i] + COOLDOWN_SECONDS
    && exists k | i <= k < |requests| - 1 :: requests[k] >= requests[i] + COOLDOWN_SECONDS
  }

  /** The last request is decided by the documented rule exactly when it was not overtaken. */
  lemma DecidedAsDocumentedIff(requests: seq<nat>, admittedBy: map<Directory, nat>, d: Directory)
    requires requests != [] && (d in admittedBy ==> admittedBy[d] < |requests|)
    ensures (MayBeAdmitted(requests, admittedBy, d) <==> IsPastCooldown(requests, admittedBy, d)) <==>
            !(d in admittedBy && Overtaken(requests, admittedBy[d]))
  {
    if d in admittedBy && IsPastCooldown(requests, admittedBy, d) {
      assert requests[|requests| - 1] >= requests[admittedBy[d]] + COOLDOWN_SECONDS;
    }
  }

  /** Requests in the order of their instants always are. */
  lemma NotOvertakenInOrder(requests: seq<nat>, i: nat)
    requires i < |requests| && forall j, k | 0 <= j < k < |requests| :: requests[j] <= requests[k]
    ensures !Overtaken(requests, i)
  {
  }

  /** Admitted at 0, forgotten by a request that read 600, admitted again by one that read 599 before it. */
  lemma OvertakenRequestIsAdmittedEarly()
    ensures var requests, d := [0, 600, 599], (1, "Alpha");
            MayBeAdmitted(requests, map[d := 0], d) && !IsPastCooldown(requests, map[d := 0], d)
  {
    var requests: seq<nat> := [0, 600, 599];
    assert requests[1] >= requests[0] + COOLDOWN_SECONDS;
  }

  ghost function Stamped(admittedBy: map<Directory, nat>, libraryId: int, admitted: seq<string>,
                         request: nat): map<Directory, nat> {
    if admitted == [] then admittedBy
    else
      Stamped(admittedBy, libraryId, admitted[..|admitted| - 1], request)
        [(libraryId, admitted[|admitted| - 1]) := request]
  }

  lemma {:induction false} StampedAt(admittedBy: map<Directory, nat>, libraryId: int, admitted: seq<string>,
                                     request: nat, d: Directory)
    ensures var stamped := Stamped(admittedBy, libraryId, admitted, request);
            && (d in stamped <==> d in admittedBy || (d.0 == libraryId && d.1 in admitted))
            && (d in stamped ==> stamped[d] == if d.0 == libraryId && d.1 in admitted then request else admittedBy[d])
  {
    if admitted != [] {
      StampedAt(admittedBy, libraryId, admitted[..|admitted| - 1], request, d);
      assert admitted == admitted[..|admitted| - 1] + [admitted[|admitted| - 1]];
    }
  }

  /** What the throttle has to remember: exactly the directories still in their cooldown. */
  ghost predicate Remembers(requested: map<Directory, nat>, requests: seq<nat>, admittedBy: map<Directory, nat>) {
    && (forall d | d in admittedBy :: admittedBy[d] < |requests|)
    && (forall d | d in requested :: d in admittedBy && requested[d] == requests[admittedBy[d]])
    && (forall d | d in admittedBy :: d in requested <==> !CooledDown(requests, admittedBy[d]))
  }

  lemma NextRequestCools(requests: seq<nat>, now: nat, i: nat)
    requires i < |requests|
    ensures CooledDown(requests + [now], i) <==> CooledDown(requests, i) || now >= requests[i] + COOLDOWN_SECONDS
  {
    var longer := requests + [now];
    if k :| i <= k < |requests| && requests[k] >= requests[i] + COOLDOWN_SECONDS {
      assert longer[k] == requests[k];
    }
    if now >= requests[i] + COOLDOWN_SECONDS {
      assert longer[|requests|] == now;
    }
  }

  /** Forgetting what is past its cooldown keeps what has to be remembered. */
  lemma ForgettingRemembers(requested: map<Directory, nat>, requests: seq<nat>, admittedBy: map<Directory, nat>,
                            now: nat)
    requires Remembers(requested, requests, admittedBy)
    ensures Remembers(map d | d in requested && now - requested[d] < COOLDOWN_SECONDS :: requested[d],
                      requests + [now], admittedBy)
  {
    forall d | d in admittedBy
      ensures CooledDown(requests + [now], admittedBy[d]) <==>
              CooledDown(requests, admittedBy[d]) || now >= requests[admittedBy[d]] + COOLDOWN_SECONDS
    {
      NextRequestCools(requests, now, admittedBy[d]);
    }
  }

  lemma AdmittingRemembers(requested: map<Directory, nat>, requests: seq<nat>, admittedBy: map<Directory, nat>,
                           d: Directory)
    requires Remembers(requested, requests, admittedBy) && requests != []
    ensures Remembers(requested[d := requests[|requests| - 1]], requests, admittedBy[d := |requests| - 1])
  {
  }

  /** The table answers for the history: what is not in it may be admitted, unless this request has just done so. */
  lemma NotInTableIff(requested: map<Directory, nat>, requests: seq<nat>, before: map<Directory, nat>, libraryId: int,
                      admitted: seq<string>, d: string)
    requires requests != []
    requires Remembers(requested, requests, Stamped(before, libraryId, admitted, |requests| - 1))
    ensures (libraryId, d) !in requested <==> MayBeAdmitted(requests, before, (libraryId, d)) && d !in admitted
  {
    StampedAt(before, libraryId, admitted, |requests| - 1, (libraryId, d));
    assert !CooledDown(requests, |requests| - 1);
  }

  lemma NextDirectory(requests: seq<nat>, before: map<Directory, nat>, libraryId: int, directories: seq<string>, i: nat)
    requires i < |directories|
    ensures var admitted := AdmittedOf(requests, before, libraryId, directories[..i]);
            AdmittedOf(requests, before, libraryId, directories[..i + 1]) ==
            if MayBeAdmitted(requests, before, (libraryId, directories[i])) && directories[i] !in admitted
            then admitted + [directories[i]] else admitted
  {
    assert directories[..i + 1][..i] == directories[..i];
  }

  /** How far a request has come: what it admitted of the first `i` directories is stamped and in the table. */
  ghost predicate AdmittedUpTo(requested: map<Directory, nat>, requests: seq<nat>, before: map<Directory, nat>,
                               libraryId: int, directories: seq<string>, i: nat, admitted: seq<string>)
    requires requests != [] && i <= |directories|
  {
    && Remembers(requested, requests, Stamped(before, libraryId, admitted, |requests| - 1))
    && admitted == AdmittedOf(requests, before, libraryId, directories[..i])
  }

  lemma NextUpTo(requested: map<Directory, nat>, requests: seq<nat>, before: map<Directory, nat>, libraryId: int,
                 directories: seq<string>, i: nat, admitted: seq<string>)
    requires requests != [] && i < |directories|
    requires AdmittedUpTo(requested, requests, before, libraryId, directories, i, admitted)
    ensures var d, now := (libraryId, directories[i]), requests[|requests| - 1];
            if d in requested then AdmittedUpTo(requested, requests, before, libraryId, directories, i + 1, admitted)
            else
              && AdmittedUpTo(requested[d := now], requests, before, libraryId, directories, i + 1,
                              admitted + [directories[i]])
              && Stamped(before, libraryId, admitted + [directories[i]], |requests| - 1)
                 == Stamped(before, libraryId, admitted, |requests| - 1)[d := |requests| - 1]
  {
    NotInTableIff(requested, requests, before, libraryId, admitted, directories[i]);
    NextDirectory(requests, before, libraryId, directories, i);
    if (libraryId, directories[i]) !in requested {
      assert (admitted + [directories[i]])[..|admitted|] == admitted;
      AdmittingRemembers(requested, requests, Stamped(before, libraryId, admitted, |requests| - 1),
                         (libraryId, directories[i]));
    }
  }

  class MediaInspectionThrottle {
    var requested: map<Directory, nat>
    /** The instants of all requests, in the order in which they came to the table. */
    ghost var requests: seq<nat>
    /** The request that admitted each directory last, never forgotten. */
    ghost var admittedBy: map<Directory, nat>

    ghost predicate Valid()
      reads this
    {
      Remembers(requested, requests, admittedBy)
    }

    constructor ()
      ensures Valid() && requests == [] && admittedBy == map[]
    {
      requested, requests, admittedBy := map[], [], map[];
    }

    /** Admits exactly the directories whose last admission is over its cooldown, however little it remembers. */
    method Admit(libraryId: int, directories: seq<string>, now: nat) returns (admitted: seq<string>)
      requires Valid()
      modifies this
      ensures Valid() && requests == old(requests) + [now]
      ensures admitted == AdmittedOf(requests, old(admittedBy), libraryId, directories)
      ensures admittedBy == Stamped(old(admittedBy), libraryId, admitted, |old(requests)|)
    {
      ghost var before := admittedBy;
      ForgettingRemembers(requested, requests, admittedBy, now);
      requested := map d | d in requested && now - requested[d] < COOLDOWN_SECONDS :: requested[d];
      requests := requests + [now];
      ghost var all := requests;
      admitted := [];
      for i := 0 to |directories|
        invariant requests == all && AdmittedUpTo(requested, all, before, libraryId, directories, i, admitted)
        invariant admittedBy == Stamped(before, libraryId, admitted, |all| - 1)
      {
        var d := directories[i];
        NextUpTo(requested, all, before, libraryId, directories, i, admitted);
        if (libraryId, d) !in requested {
          requested := requested[(libraryId, d) := now];
          admittedBy := admittedBy[(libraryId, d) := |all| - 1];
          admitted := admitted + [d];
        }
      }
      assert directories[..|directories|] == directories;
    }
  }
}
