/** From a change to the streams that hear of it: what the dispatcher publishes, sent through the hub. */
module RealtimeDelivery {
  import opened RealtimeMessages
  import opened ResourceKeys
  import opened Wrappers
  import Dispatch = RealtimeDispatcher
  import Hub = RealtimeHub

  /** How an output is written down; only its audience matters here. */
  type Encoding = Dispatch.Output -> (string, string)

  function AudienceOf(o: Dispatch.Output): Visibility {
    match o
    case ScanProgress(_, update, _) => Library(update.libraryId)
    case ScanFinished(_, update, _) => Library(update.libraryId)
    case ResourcesChanged(visibility, _) => visibility
    case SessionInvalidated(visibility) => visibility
  }

  function MessageOf(o: Dispatch.Output, encoding: Encoding): Message {
    var (event, data) := encoding(o);
    Message(event, data, AudienceOf(o))
  }

  /** Whether a stream is entitled to an output. */
  ghost predicate MaySee(o: Dispatch.Output, user: UserProfile, sessionKey: string) {
    Message("", "", AudienceOf(o)).IsVisibleTo(user, sessionKey)
  }

  lemma EntitledIsVisible(o: Dispatch.Output, encoding: Encoding, user: UserProfile, sessionKey: string)
    ensures MaySee(o, user, sessionKey) <==> MessageOf(o, encoding).IsVisibleTo(user, sessionKey)
  {
  }

  /** Scan messages are for those with access to the library, changes and sign-outs for those their audience names. */
  lemma WhoMaySee(o: Dispatch.Output, user: UserProfile, sessionKey: string)
    ensures o.ScanProgress? || o.ScanFinished? ==>
              (MaySee(o, user, sessionKey) <==>
               user.role == Owner || user.role == Admin || o.update.libraryId in user.libraryIds)
    ensures o.ResourcesChanged? || o.SessionInvalidated? ==>
              (MaySee(o, user, sessionKey) <==>
               || o.visibility == Public
               || o.visibility == User(user.id)
               || o.visibility == Session(sessionKey)
               || (o.visibility == AdminOnly && (user.role == Owner || user.role == Admin))
               || (o.visibility.Library?
                   && (user.role == Owner || user.role == Admin || o.visibility.libraryId in user.libraryIds)))
  {
  }

  // ---- one output ----

  /** How many copies of an output a stream gets when it is published through the hub. */
  ghost function CopiesOf(s: Hub.HubState, o: Dispatch.Output, encoding: Encoding, id: nat): nat
    requires id in s.subscribers && id in Hub.PublishTo(s, MessageOf(o, encoding)).subscribers
    requires |Hub.PublishTo(s, MessageOf(o, encoding)).subscribers[id].receivers| == |s.subscribers[id].receivers|
  {
    var message := MessageOf(o, encoding);
    Hub.Deliveries(s.subscribers[id].receivers, Hub.PublishTo(s, message).subscribers[id].receivers, message)
  }

  /** Whatever a step of the dispatcher publishes reaches exactly the streams entitled to it. */
  lemma OutputReachesItsAudience(start: Hub.HubState, events: seq<Hub.Event>, o: Dispatch.Output, encoding: Encoding,
                                 id: nat)
    requires Hub.Start(start) && Hub.Runs(start, events) && id in Hub.Run(start, events).subscribers
    ensures var s := Hub.Run(start, events);
            var x := s.subscribers[id];
            && id in Hub.PublishTo(s, MessageOf(o, encoding)).subscribers
            && |Hub.PublishTo(s, MessageOf(o, encoding)).subscribers[id].receivers| == |x.receivers|
            && (CopiesOf(s, o, encoding, id) > 0 <==> MaySee(o, x.user, x.sessionKey))
  {
    var x := Hub.Run(start, events).subscribers[id];
    Hub.RoutingEqualsVisibility(start, events, MessageOf(o, encoding), id);
    EntitledIsVisible(o, encoding, x.user, x.sessionKey);
  }

  /** A flush of exactly these keys that the database answered. */
  ghost predicate FlushesWith(s: Dispatch.DispatcherState, e: Dispatch.Step, keys: set<string>,
                              found: map<string, int>) {
    || (e == Dispatch.FlushResources(Some(found)) && keys == s.pendingResources)
    || (e == Dispatch.FlushContinueWatching(Some(found)) && keys == s.pendingContinueWatching)
    || (e.ResourceChangedImmediate? && e.revisions == Some(found) && keys == {e.key})
  }

  lemma FlushPublishesByAudience(s: Dispatch.DispatcherState, e: Dispatch.Step, keys: set<string>,
                                 found: map<string, int>)
    requires FlushesWith(s, e, keys, found) && keys != {}
    ensures var t := Dispatch.Apply(s, e);
            t.published == s.published + [Dispatch.Grouped(map k | k in found && k in keys :: found[k])]
  {
  }

  /**
   * A changed key whose revision the database returns is published once by the flush, with that revision, and of all
   * streams of the hub exactly those hear of it that the key's audience names.
   */
  lemma ChangeReachesItsAudience(s: Dispatch.DispatcherState, e: Dispatch.Step, keys: set<string>,
                                 found: map<string, int>, key: string, start: Hub.HubState,
                                 events: seq<Hub.Event>, encoding: Encoding, id: nat)
    returns (o: Dispatch.Output)
    requires FlushesWith(s, e, keys, found) && key in keys && key in found && VisibilityFor(key).Some?
    requires Hub.Start(start) && Hub.Runs(start, events) && id in Hub.Run(start, events).subscribers
    ensures var published := Dispatch.Apply(s, e).published;
            && |published| == |s.published| + 1
            && o in published[|s.published|] && o.ResourcesChanged? && key in o.changes && o.changes[key] == found[key]
            && forall other | other in published[|s.published|] && other.ResourcesChanged? && key in other.changes ::
                 other == o
    ensures var hub := Hub.Run(start, events);
            var x := hub.subscribers[id];
            && id in Hub.PublishTo(hub, MessageOf(o, encoding)).subscribers
            && |Hub.PublishTo(hub, MessageOf(o, encoding)).subscribers[id].receivers| == |x.receivers|
            && (CopiesOf(hub, o, encoding, id) > 0 <==>
                Message("", "", VisibilityFor(key).value).IsVisibleTo(x.user, x.sessionKey))
  {
    var revisions := map k | k in found && k in keys :: found[k];
    FlushPublishesByAudience(s, e, keys, found);
    Dispatch.RevisionsReachTheirAudience(revisions, key);
    var audience := VisibilityFor(key).value;
    o := Dispatch.ResourcesChanged(audience, Dispatch.ChangesFor(revisions, audience));
    OutputReachesItsAudience(start, events, o, encoding, id);
  }

  // ---- all outputs of a step ----

  ghost function Publications(outputs: seq<Dispatch.Output>, encoding: Encoding): seq<Hub.Event> {
    if outputs == [] then [] else [Hub.Publish(MessageOf(outputs[0], encoding))] + Publications(outputs[1..], encoding)
  }

  ghost function Messages(receivers: seq<Hub.Receiver>): nat {
    if receivers == [] then 0 else |receivers[0].inbox| + Messages(receivers[1..])
  }

  /** The copies a stream is owed of a list of outputs. */
  ghost function Owed(outputs: seq<Dispatch.Output>, encoding: Encoding, user: UserProfile, sessionKey: string): nat {
    if outputs == [] then 0
    else Hub.Owed(user, sessionKey, MessageOf(outputs[0], encoding)) + Owed(outputs[1..], encoding, user, sessionKey)
  }

  lemma {:induction false} MessagesReceived(before: seq<Hub.Receiver>, after: seq<Hub.Receiver>, targets: set<nat>,
                                            message: Message)
    requires Hub.ReceivedOn(before, after, targets, message)
    ensures Messages(after) == Messages(before) + Hub.Deliveries(before, after, message)
  {
    if before != [] {
      MessagesReceived(before[1..], after[1..], targets, message);
    }
  }

  lemma OnePublication(s: Hub.HubState, message: Message, id: nat)
    requires Hub.Inv(s) && id in s.subscribers
    ensures var s', x := Hub.PublishTo(s, message), s.subscribers[id];
            && Hub.Inv(s') && id in s'.subscribers
            && s'.subscribers[id].user == x.user && s'.subscribers[id].sessionKey == x.sessionKey
            && Messages(s'.subscribers[id].receivers)
               == Messages(x.receivers) + Hub.Owed(x.user, x.sessionKey, message)
  {
    Hub.PublishKeepsInv(s, message);
    Hub.PublishKeepsStream(s, message, id);
    Hub.PublishReceived(s, message, id);
    Hub.DeliveriesOwed(s, message, id);
    MessagesReceived(s.subscribers[id].receivers, Hub.PublishTo(s, message).subscribers[id].receivers,
                     Hub.Targets(Hub.PublishTo(s, message), message), message);
  }

  lemma {:induction false} AllPublications(s: Hub.HubState, outputs: seq<Dispatch.Output>, encoding: Encoding, id: nat)
    requires Hub.Inv(s) && id in s.subscribers
    ensures Hub.Runs(s, Publications(outputs, encoding))
    ensures var s', x := Hub.Run(s, Publications(outputs, encoding)), s.subscribers[id];
            && id in s'.subscribers && s'.subscribers[id].user == x.user
               && s'.subscribers[id].sessionKey == x.sessionKey
            && Messages(s'.subscribers[id].receivers)
               == Messages(x.receivers) + Owed(outputs, encoding, x.user, x.sessionKey)
    decreases |outputs|
  {
    if outputs != [] {
      var message := MessageOf(outputs[0], encoding);
      OnePublication(s, message, id);
      AllPublications(Hub.PublishTo(s, message), outputs[1..], encoding, id);
      assert Publications(outputs, encoding)[1..] == Publications(outputs[1..], encoding);
    }
  }

  lemma {:induction false} OwedExactlyWhenEntitled(outputs: seq<Dispatch.Output>, encoding: Encoding, user: UserProfile,
                                                   sessionKey: string)
    ensures Owed(outputs, encoding, user, sessionKey) > 0 <==>
            exists i | 0 <= i < |outputs| :: MaySee(outputs[i], user, sessionKey)
  {
    if outputs != [] {
      OwedExactlyWhenEntitled(outputs[1..], encoding, user, sessionKey);
      var message := MessageOf(outputs[0], encoding);
      EntitledIsVisible(outputs[0], encoding, user, sessionKey);
      if message.visibility.Library? {
        Hub.OccurrencesOfMember(user.libraryIds, message.visibility.libraryId);
      }
      if i :| 0 <= i < |outputs| && MaySee(outputs[i], user, sessionKey) {
        assert i == 0 || outputs[1..][i - 1] == outputs[i];
      }
      if i :| 0 <= i < |outputs[1..]| && MaySee(outputs[1..][i], user, sessionKey) {
        assert outputs[i + 1] == outputs[1..][i];
      }
    }
  }

  /**
   * Sending what a step published through the hub gives a stream the copies it is owed: none at all exactly when it
   * is entitled to none of it.
   */
  lemma StepReachesItsStreams(start: Hub.HubState, events: seq<Hub.Event>, outputs: seq<Dispatch.Output>,
                              encoding: Encoding, id: nat)
    requires Hub.Start(start) && Hub.Runs(start, events) && id in Hub.Run(start, events).subscribers
    ensures var s := Hub.Run(start, events);
            && Hub.Runs(s, Publications(outputs, encoding))
            && var s', x := Hub.Run(s, Publications(outputs, encoding)), s.subscribers[id];
               && id in s'.subscribers
               && Messages(s'.subscribers[id].receivers)
                  == Messages(x.receivers) + Owed(outputs, encoding, x.user, x.sessionKey)
               && (Messages(s'.subscribers[id].receivers) == Messages(x.receivers) <==>
                   forall i | 0 <= i < |outputs| :: !MaySee(outputs[i], x.user, x.sessionKey))
  {
    Hub.RunKeepsInv(start, events);
    var s := Hub.Run(start, events);
    var x := s.subscribers[id];
    AllPublications(s, outputs, encoding, id);
    OwedExactlyWhenEntitled(outputs, encoding, x.user, x.sessionKey);
  }
}
