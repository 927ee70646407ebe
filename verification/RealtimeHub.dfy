/**
 * Routing of realtime messages. A message goes to the channels of its scope,
 * a stream listens to the channels it was entitled to when it connected, and
 * the two together must amount to the visibility predicate.
 */
module RealtimeHub {
  import opened RealtimeMessages

  datatype Receiver = Receiver(channel: nat, inbox: seq<Message>)

  datatype Subscriber = Subscriber(user: UserProfile, sessionKey: string, receivers: seq<Receiver>)

  const PUBLIC_CHANNEL: nat := 0
  const ADMIN_CHANNEL: nat := 1

  datatype HubState = HubState(
    librarySenders: map<int, nat>,
    userSenders: map<int, nat>,
    sessionSenders: map<string, nat>,
    nextChannel: nat,
    subscribers: map<nat, Subscriber>)

  datatype Event =
    | Publish(message: Message)
    | Subscribe(id: nat, user: UserProfile, sessionKey: string)
    | Disconnect(id: nat)
    | UnsubscribeSession(sessionKey: string)

  ghost predicate Start(s: HubState) {
    s.librarySenders == map[] && s.userSenders == map[] && s.sessionSenders == map[] && s.subscribers == map[]
    && s.nextChannel == 2
  }

  ghost predicate Enabled(s: HubState, e: Event) {
    match e
    case Subscribe(id, _, _) => id !in s.subscribers
    case Disconnect(id) => id in s.subscribers
    case _ => true
  }

  // ---- Sending ----

  function Receive(receivers: seq<Receiver>, channel: nat, message: Message): (r: seq<Receiver>)
    ensures |r| == |receivers|
    ensures forall i | 0 <= i < |r| :: r[i].channel == receivers[i].channel
  {
    if receivers == [] then []
    else
      var head := receivers[0];
      [if head.channel == channel then head.(inbox := head.inbox + [message]) else head]
      + Receive(receivers[1..], channel, message)
  }

  function Send(s: HubState, channel: nat, message: Message): HubState {
    s.(subscribers := map id | id in s.subscribers ::
         s.subscribers[id].(receivers := Receive(s.subscribers[id].receivers, channel, message)))
  }

  function WithLibrary(s: HubState, library: int): HubState {
    if library in s.librarySenders then s
    else s.(librarySenders := s.librarySenders[library := s.nextChannel], nextChannel := s.nextChannel + 1)
  }

  function WithUser(s: HubState, user: int): HubState {
    if user in s.userSenders then s
    else s.(userSenders := s.userSenders[user := s.nextChannel], nextChannel := s.nextChannel + 1)
  }

  function WithSession(s: HubState, key: string): HubState {
    if key in s.sessionSenders then s
    else s.(sessionSenders := s.sessionSenders[key := s.nextChannel], nextChannel := s.nextChannel + 1)
  }

  function PublishTo(s: HubState, message: Message): HubState {
    match message.visibility
    case Public => Send(s, PUBLIC_CHANNEL, message)
    case AdminOnly => Send(s, ADMIN_CHANNEL, message)
    case Library(library) =>
      var ready := WithLibrary(Send(s, ADMIN_CHANNEL, message), library);
      Send(ready, ready.librarySenders[library], message)
    case User(user) =>
      var ready := WithUser(s, user);
      Send(ready, ready.userSenders[user], message)
    case Session(key) =>
      if key in s.sessionSenders then Send(s, s.sessionSenders[key], message) else s
  }

  // ---- Subscribing ----

  function WithLibraries(s: HubState, libraries: seq<int>): HubState
    decreases |libraries|
  {
    if libraries == [] then s else WithLibraries(WithLibrary(s, libraries[0]), libraries[1..])
  }

  function OpenChannels(s: HubState, user: UserProfile, sessionKey: string): HubState {
    var scoped := WithUser(s, user.id);
    WithSession(if user.role.IsAdmin() then scoped else WithLibraries(scoped, user.libraryIds), sessionKey)
  }

  function Listen(channels: seq<nat>): (r: seq<Receiver>)
    ensures |r| == |channels| && forall i | 0 <= i < |r| :: r[i] == Receiver(channels[i], [])
  {
    seq(|channels|, i requires 0 <= i < |channels| => Receiver(channels[i], []))
  }

  ghost predicate Opened(s: HubState, user: UserProfile, sessionKey: string) {
    && user.id in s.userSenders && sessionKey in s.sessionSenders
    && (!user.role.IsAdmin() ==> forall i | 0 <= i < |user.libraryIds| :: user.libraryIds[i] in s.librarySenders)
  }

  /** The channels a stream of this user listens to, in the order of its receivers. */
  function Channels(s: HubState, user: UserProfile, sessionKey: string): seq<nat>
    requires Opened(s, user, sessionKey)
  {
    [PUBLIC_CHANNEL, s.userSenders[user.id]]
    + (if user.role.IsAdmin() then [ADMIN_CHANNEL]
       else seq(|user.libraryIds|, i requires 0 <= i < |user.libraryIds| && user.libraryIds[i] in s.librarySenders =>
                  s.librarySenders[user.libraryIds[i]]))
    + [s.sessionSenders[sessionKey]]
  }

  predicate HasReceivers(s: HubState, channel: nat) {
    exists id | id in s.subscribers ::
      exists i | 0 <= i < |s.subscribers[id].receivers| :: s.subscribers[id].receivers[i].channel == channel
  }

  ghost function Apply(s: HubState, e: Event): HubState
    requires Enabled(s, e)
  {
    match e
    case Publish(message) => PublishTo(s, message)
    case Subscribe(id, user, key) =>
      var ready := OpenChannels(s, user, key);
      OpenChannelsOpens(s, user, key);
      ready.(subscribers := ready.subscribers[id := Subscriber(user, key, Listen(Channels(ready, user, key)))])
    case Disconnect(id) => s.(subscribers := s.subscribers - {id})
    case UnsubscribeSession(key) =>
      if key in s.sessionSenders && !HasReceivers(s, s.sessionSenders[key])
      then s.(sessionSenders := s.sessionSenders - {key}) else s
  }

  ghost predicate Runs(s: HubState, events: seq<Event>)
    decreases |events|
  {
    events == [] || (Enabled(s, events[0]) && Runs(Apply(s, events[0]), events[1..]))
  }

  ghost function Run(s: HubState, events: seq<Event>): HubState
    requires Runs(s, events)
    decreases |events|
  {
    if events == [] then s else Run(Apply(s, events[0]), events[1..])
  }

  // ---- Channels only ever come into being ----

  ghost predicate Extends(s: HubState, s': HubState) {
    && (forall l | l in s.librarySenders :: l in s'.librarySenders && s'.librarySenders[l] == s.librarySenders[l])
    && (forall u | u in s.userSenders :: u in s'.userSenders && s'.userSenders[u] == s.userSenders[u])
    && (forall k | k in s.sessionSenders :: k in s'.sessionSenders && s'.sessionSenders[k] == s.sessionSenders[k])
    && s.nextChannel <= s'.nextChannel
  }

  /** No channel serves two scopes. */
  ghost predicate SendersDistinct(s: HubState) {
    && s.nextChannel >= 2
    && (forall l | l in s.librarySenders :: 2 <= s.librarySenders[l] < s.nextChannel)
    && (forall u | u in s.userSenders :: 2 <= s.userSenders[u] < s.nextChannel)
    && (forall k | k in s.sessionSenders :: 2 <= s.sessionSenders[k] < s.nextChannel)
    && (forall l, m | l in s.librarySenders && m in s.librarySenders && l != m ::
          s.librarySenders[l] != s.librarySenders[m])
    && (forall u, v | u in s.userSenders && v in s.userSenders && u != v :: s.userSenders[u] != s.userSenders[v])
    && (forall k, l | k in s.sessionSenders && l in s.sessionSenders && k != l ::
          s.sessionSenders[k] != s.sessionSenders[l])
    && (forall l, u | l in s.librarySenders && u in s.userSenders :: s.librarySenders[l] != s.userSenders[u])
    && (forall l, k | l in s.librarySenders && k in s.sessionSenders :: s.librarySenders[l] != s.sessionSenders[k])
    && (forall u, k | u in s.userSenders && k in s.sessionSenders :: s.userSenders[u] != s.sessionSenders[k])
  }

  lemma WithLibraryExtends(s: HubState, library: int)
    ensures Extends(s, WithLibrary(s, library)) && WithLibrary(s, library).subscribers == s.subscribers
    ensures SendersDistinct(s) ==> SendersDistinct(WithLibrary(s, library))
  {
  }

  lemma WithUserExtends(s: HubState, user: int)
    ensures Extends(s, WithUser(s, user)) && WithUser(s, user).subscribers == s.subscribers
    ensures SendersDistinct(s) ==> SendersDistinct(WithUser(s, user))
  {
  }

  lemma WithSessionExtends(s: HubState, key: string)
    ensures Extends(s, WithSession(s, key)) && WithSession(s, key).subscribers == s.subscribers
    ensures SendersDistinct(s) ==> SendersDistinct(WithSession(s, key))
  {
  }

  lemma {:induction false} WithLibrariesExtends(s: HubState, libraries: seq<int>)
    ensures Extends(s, WithLibraries(s, libraries)) && WithLibraries(s, libraries).subscribers == s.subscribers
    ensures SendersDistinct(s) ==> SendersDistinct(WithLibraries(s, libraries))
    ensures forall i | 0 <= i < |libraries| :: libraries[i] in WithLibraries(s, libraries).librarySenders
    decreases |libraries|
  {
    if libraries != [] {
      WithLibraryExtends(s, libraries[0]);
      WithLibrariesExtends(WithLibrary(s, libraries[0]), libraries[1..]);
      assert libraries == [libraries[0]] + libraries[1..];
    }
  }

  lemma OpenChannelsOpens(s: HubState, user: UserProfile, sessionKey: string)
    ensures Opened(OpenChannels(s, user, sessionKey), user, sessionKey)
    ensures Extends(s, OpenChannels(s, user, sessionKey))
    ensures OpenChannels(s, user, sessionKey).subscribers == s.subscribers
    ensures SendersDistinct(s) ==> SendersDistinct(OpenChannels(s, user, sessionKey))
  {
    var scoped := WithUser(s, user.id);
    WithUserExtends(s, user.id);
    WithLibrariesExtends(scoped, user.libraryIds);
    WithSessionExtends(if user.role.IsAdmin() then scoped else WithLibraries(scoped, user.libraryIds), sessionKey);
  }

  // ---- Invariant: every live stream listens to the current channels of its scopes ----

  ghost predicate Listens(s: HubState, x: Subscriber) {
    && Opened(s, x.user, x.sessionKey)
    && var channels := Channels(s, x.user, x.sessionKey);
       |x.receivers| == |channels| && forall i | 0 <= i < |channels| :: x.receivers[i].channel == channels[i]
  }

  ghost predicate Inv(s: HubState) {
    && SendersDistinct(s)
    && forall id | id in s.subscribers :: Listens(s, s.subscribers[id])
  }

  lemma ListensAfterExtension(s: HubState, s': HubState, x: Subscriber)
    requires Listens(s, x) && Extends(s, s')
    ensures Listens(s', x)
  {
    forall i | 0 <= i < |x.user.libraryIds| && !x.user.role.IsAdmin()
      ensures x.user.libraryIds[i] in s'.librarySenders
      ensures s'.librarySenders[x.user.libraryIds[i]] == s.librarySenders[x.user.libraryIds[i]]
    {
      var library := x.user.libraryIds[i];
      assert library in s.librarySenders;
    }
    assert Channels(s', x.user, x.sessionKey) == Channels(s, x.user, x.sessionKey);
  }

  lemma SendKeepsInv(s: HubState, channel: nat, message: Message)
    requires Inv(s)
    ensures Inv(Send(s, channel, message))
  {
    var s' := Send(s, channel, message);
    forall id | id in s'.subscribers
      ensures Listens(s', s'.subscribers[id])
    {
      var x := s.subscribers[id];
      assert Listens(s, x);
      assert Channels(s', x.user, x.sessionKey) == Channels(s, x.user, x.sessionKey);
    }
  }

  lemma ExtensionKeepsInv(s: HubState, s': HubState)
    requires Inv(s) && Extends(s, s') && SendersDistinct(s') && s'.subscribers == s.subscribers
    ensures Inv(s')
  {
    forall id | id in s'.subscribers
      ensures Listens(s', s'.subscribers[id])
    {
      ListensAfterExtension(s, s', s.subscribers[id]);
    }
  }

  lemma PublishKeepsInv(s: HubState, message: Message)
    requires Inv(s)
    ensures Inv(PublishTo(s, message))
  {
    match message.visibility {
      case Public => SendKeepsInv(s, PUBLIC_CHANNEL, message);
      case AdminOnly => SendKeepsInv(s, ADMIN_CHANNEL, message);
      case Library(library) =>
        var sent := Send(s, ADMIN_CHANNEL, message);
        SendKeepsInv(s, ADMIN_CHANNEL, message);
        WithLibraryExtends(sent, library);
        ExtensionKeepsInv(sent, WithLibrary(sent, library));
        SendKeepsInv(WithLibrary(sent, library), WithLibrary(sent, library).librarySenders[library], message);
      case User(user) =>
        WithUserExtends(s, user);
        ExtensionKeepsInv(s, WithUser(s, user));
        SendKeepsInv(WithUser(s, user), WithUser(s, user).userSenders[user], message);
      case Session(key) =>
        if key in s.sessionSenders {
          SendKeepsInv(s, s.sessionSenders[key], message);
        }
    }
  }

  lemma SubscribeKeepsInv(s: HubState, id: nat, user: UserProfile, sessionKey: string)
    requires Inv(s) && Enabled(s, Subscribe(id, user, sessionKey))
    ensures Inv(Apply(s, Subscribe(id, user, sessionKey)))
  {
    var s' := Apply(s, Subscribe(id, user, sessionKey));
    var ready := OpenChannels(s, user, sessionKey);
    OpenChannelsOpens(s, user, sessionKey);
    assert Channels(s', user, sessionKey) == Channels(ready, user, sessionKey);
    forall other | other in s'.subscribers
      ensures Listens(s', s'.subscribers[other])
    {
      if other != id {
        ListensAfterExtension(s, s', s.subscribers[other]);
      }
    }
  }

  /** A session channel is only dropped when no live stream listens to it. */
  lemma UnsubscribeKeepsInv(s: HubState, key: string)
    requires Inv(s)
    ensures Inv(Apply(s, UnsubscribeSession(key)))
  {
    var s' := Apply(s, UnsubscribeSession(key));
    forall id | id in s'.subscribers
      ensures Listens(s', s'.subscribers[id])
    {
      var x := s.subscribers[id];
      assert Listens(s, x);
      var last := |x.receivers| - 1;
      assert x.receivers[last].channel == s.sessionSenders[x.sessionKey];
      if s' != s {
        assert x.sessionKey != key;
        assert Channels(s', x.user, x.sessionKey) == Channels(s, x.user, x.sessionKey);
      }
    }
  }

  lemma HasReceiversOfSession(s: HubState, key: string)
    requires Inv(s) && key in s.sessionSenders
    ensures HasReceivers(s, s.sessionSenders[key]) <==>
            exists id | id in s.subscribers :: s.subscribers[id].sessionKey == key
  {
    if HasReceivers(s, s.sessionSenders[key]) {
      var id :| id in s.subscribers
                && exists i | 0 <= i < |s.subscribers[id].receivers| ::
                     s.subscribers[id].receivers[i].channel == s.sessionSenders[key];
      var x := s.subscribers[id];
      assert Listens(s, x);
      var i :| 0 <= i < |x.receivers| && x.receivers[i].channel == s.sessionSenders[key];
      OnlyTheSessionChannel(s, x, i, key);
    }
    if id :| id in s.subscribers && s.subscribers[id].sessionKey == key {
      var x := s.subscribers[id];
      assert Listens(s, x);
      assert x.receivers[|x.receivers| - 1].channel == s.sessionSenders[key];
    }
  }

  lemma OnlyTheSessionChannel(s: HubState, x: Subscriber, i: nat, key: string)
    requires SendersDistinct(s) && Listens(s, x) && key in s.sessionSenders
    requires i < |x.receivers| && x.receivers[i].channel == s.sessionSenders[key]
    ensures x.sessionKey == key
  {
    var channels := Channels(s, x.user, x.sessionKey);
    assert channels[i] == s.sessionSenders[key] >= 2;
    assert channels[0] == PUBLIC_CHANNEL && channels[1] == s.userSenders[x.user.id];
    assert channels[|channels| - 1] == s.sessionSenders[x.sessionKey];
    if x.user.role.IsAdmin() {
      assert |channels| == 4 && channels[2] == ADMIN_CHANNEL;
    } else {
      forall k | 2 <= k < |channels| - 1
        ensures channels[k] != s.sessionSenders[key]
      {
        var library := x.user.libraryIds[k - 2];
        assert library in s.librarySenders && channels[k] == s.librarySenders[library];
      }
    }
  }

  /** Dropping a session frees its channel exactly when no live stream of that session is left. */
  lemma SessionChannelIsDropped(start: HubState, events: seq<Event>, key: string)
    requires Start(start) && Runs(start, events)
    ensures var s := Run(start, events);
            key in Apply(s, UnsubscribeSession(key)).sessionSenders <==>
            key in s.sessionSenders && exists id | id in s.subscribers :: s.subscribers[id].sessionKey == key
  {
    RunKeepsInv(start, events);
    var s := Run(start, events);
    if key in s.sessionSenders {
      HasReceiversOfSession(s, key);
    }
  }

  /** A new stream starts with nothing to read, and changes nothing for the others. */
  lemma NewStreamStartsEmpty(s: HubState, id: nat, user: UserProfile, sessionKey: string)
    requires id !in s.subscribers
    ensures var t := Apply(s, Subscribe(id, user, sessionKey));
            && t.subscribers.Keys == s.subscribers.Keys + {id}
            && (forall other | other in s.subscribers :: t.subscribers[other] == s.subscribers[other])
            && t.subscribers[id].user == user && t.subscribers[id].sessionKey == sessionKey
            && forall i | 0 <= i < |t.subscribers[id].receivers| :: t.subscribers[id].receivers[i].inbox == []
  {
    OpenChannelsOpens(s, user, sessionKey);
  }

  lemma DisconnectKeepsInv(s: HubState, id: nat)
    requires Inv(s) && id in s.subscribers
    ensures Inv(Apply(s, Disconnect(id)))
  {
    var s' := Apply(s, Disconnect(id));
    forall other | other in s'.subscribers
      ensures Listens(s', s'.subscribers[other])
    {
      var x := s.subscribers[other];
      assert Listens(s, x);
      assert Channels(s', x.user, x.sessionKey) == Channels(s, x.user, x.sessionKey);
    }
  }

  lemma {:induction false} RunKeepsInv(s: HubState, events: seq<Event>)
    requires Inv(s) && Runs(s, events)
    ensures Inv(Run(s, events))
    decreases |events|
  {
    if events != [] {
      match events[0] {
        case Publish(message) => PublishKeepsInv(s, message);
        case Subscribe(id, user, key) => SubscribeKeepsInv(s, id, user, key);
        case Disconnect(id) => DisconnectKeepsInv(s, id);
        case UnsubscribeSession(key) => UnsubscribeKeepsInv(s, key);
      }
      RunKeepsInv(Apply(s, events[0]), events[1..]);
    }
  }

  // ---- Deliveries ----

  /** How many receivers of one stream got the message. */
  ghost function Deliveries(before: seq<Receiver>, after: seq<Receiver>, message: Message): nat
    requires |before| == |after|
  {
    if before == [] then 0
    else (if after[0].inbox == before[0].inbox + [message] then 1 else 0)
         + Deliveries(before[1..], after[1..], message)
  }

  ghost function CountIn(channels: seq<nat>, targets: set<nat>): nat {
    if channels == [] then 0 else (if channels[0] in targets then 1 else 0) + CountIn(channels[1..], targets)
  }

  ghost predicate ReceivedOn(before: seq<Receiver>, after: seq<Receiver>, targets: set<nat>, message: Message) {
    && |before| == |after|
    && forall i | 0 <= i < |before| ::
         after[i] == if before[i].channel in targets then before[i].(inbox := before[i].inbox + [message])
             else before[i]
  }

  lemma {:induction false} ReceiveOn(receivers: seq<Receiver>, channel: nat, message: Message)
    ensures ReceivedOn(receivers, Receive(receivers, channel, message), {channel}, message)
  {
    if receivers != [] {
      ReceiveOn(receivers[1..], channel, message);
    }
  }

  lemma {:induction false} DeliveriesAreCounted(
    before: seq<Receiver>, after: seq<Receiver>, targets: set<nat>, message: Message, channels: seq<nat>)
    requires ReceivedOn(before, after, targets, message)
    requires |channels| == |before| && forall i | 0 <= i < |before| :: before[i].channel == channels[i]
    ensures Deliveries(before, after, message) == CountIn(channels, targets)
  {
    if before != [] {
      assert |before[0].inbox + [message]| != |before[0].inbox|;
      DeliveriesAreCounted(before[1..], after[1..], targets, message, channels[1..]);
    }
  }

  lemma {:induction false} CountInConcat(a: seq<nat>, b: seq<nat>, targets: set<nat>)
    ensures CountIn(a + b, targets) == CountIn(a, targets) + CountIn(b, targets)
  {
    if a == [] {
      assert a + b == b;
    } else {
      CountInConcat(a[1..], b, targets);
      assert (a + b)[1..] == a[1..] + b;
    }
  }

  /** The channels a message is sent to, once those it needs exist. */
  ghost function Targets(s: HubState, message: Message): set<nat> {
    match message.visibility
    case Public => {PUBLIC_CHANNEL}
    case AdminOnly => {ADMIN_CHANNEL}
    case Library(library) =>
      {ADMIN_CHANNEL} + (if library in s.librarySenders then {s.librarySenders[library]} else {})
    case User(user) => if user in s.userSenders then {s.userSenders[user]} else {}
    case Session(key) => if key in s.sessionSenders then {s.sessionSenders[key]} else {}
  }

  lemma SentReceived(s: HubState, channel: nat, message: Message, id: nat)
    requires id in s.subscribers
    ensures id in Send(s, channel, message).subscribers
    ensures ReceivedOn(s.subscribers[id].receivers, Send(s, channel, message).subscribers[id].receivers, {channel},
        message)
  {
    ReceiveOn(s.subscribers[id].receivers, channel, message);
  }

  lemma ReceivedOnBoth(a: seq<Receiver>, b: seq<Receiver>, c: seq<Receiver>, first: nat, second: nat, message: Message)
    requires ReceivedOn(a, b, {first}, message) && ReceivedOn(b, c, {second}, message) && first != second
    ensures ReceivedOn(a, c, {first, second}, message)
  {
  }

  lemma LibraryReceived(s: HubState, library: int, message: Message, id: nat)
    requires SendersDistinct(s) && id in s.subscribers && message.visibility == Library(library)
    ensures id in PublishTo(s, message).subscribers
    ensures ReceivedOn(s.subscribers[id].receivers, PublishTo(s, message).subscribers[id].receivers,
                       Targets(PublishTo(s, message), message), message)
  {
    var sent := Send(s, ADMIN_CHANNEL, message);
    var scoped := WithLibrary(sent, library);
    var channel := scoped.librarySenders[library];
    assert 2 <= channel;
    assert scoped.subscribers == sent.subscribers;
    SentReceived(s, ADMIN_CHANNEL, message, id);
    SentReceived(scoped, channel, message, id);
    ReceivedOnBoth(s.subscribers[id].receivers, sent.subscribers[id].receivers,
                   Send(scoped, channel, message).subscribers[id].receivers, ADMIN_CHANNEL, channel, message);
    assert Targets(PublishTo(s, message), message) == {ADMIN_CHANNEL, channel};
  }

  lemma PublishReceived(s: HubState, message: Message, id: nat)
    requires SendersDistinct(s) && id in s.subscribers
    ensures id in PublishTo(s, message).subscribers
    ensures ReceivedOn(s.subscribers[id].receivers, PublishTo(s, message).subscribers[id].receivers,
                       Targets(PublishTo(s, message), message), message)
  {
    match message.visibility {
      case Public => SentReceived(s, PUBLIC_CHANNEL, message, id);
      case AdminOnly => SentReceived(s, ADMIN_CHANNEL, message, id);
      case Library(library) => LibraryReceived(s, library, message, id);
      case User(user) =>
        WithUserExtends(s, user);
        SentReceived(WithUser(s, user), WithUser(s, user).userSenders[user], message, id);
      case Session(key) =>
        if key in s.sessionSenders {
          SentReceived(s, s.sessionSenders[key], message, id);
        }
    }
  }

  ghost function Occurrences(libraries: seq<int>, library: int): nat {
    if libraries == [] then 0
    else (if libraries[0] == library then 1 else 0) + Occurrences(libraries[1..], library)
  }

  lemma {:induction false} OccurrencesOfMember(libraries: seq<int>, library: int)
    ensures library in libraries <==> Occurrences(libraries, library) > 0
    ensures (forall i, j | 0 <= i < j < |libraries| :: libraries[i] != libraries[j]) ==>
              Occurrences(libraries, library) <= 1
  {
    if libraries != [] {
      OccurrencesOfMember(libraries[1..], library);
      assert libraries == [libraries[0]] + libraries[1..];
    }
  }

  ghost function LibraryChannels(s: HubState, libraries: seq<int>): seq<nat>
    requires forall i | 0 <= i < |libraries| :: libraries[i] in s.librarySenders
  {
    seq(|libraries|, i requires 0 <= i < |libraries|
        && libraries[i] in s.librarySenders => s.librarySenders[libraries[i]])
  }

  lemma {:induction false} LibraryChannelsCounted(s: HubState, libraries: seq<int>, message: Message)
    requires SendersDistinct(s)
    requires forall i | 0 <= i < |libraries| :: libraries[i] in s.librarySenders
    ensures CountIn(LibraryChannels(s, libraries), Targets(s, message))
         == if message.visibility.Library? then Occurrences(libraries, message.visibility.libraryId) else 0
  {
    if libraries == [] {
      assert LibraryChannels(s, libraries) == [];
    } else {
      var library := libraries[0];
      assert library in s.librarySenders;
      LibraryChannelsCounted(s, libraries[1..], message);
      assert LibraryChannels(s, libraries)[1..] == LibraryChannels(s, libraries[1..]);
    }
  }

  /** The number of copies a stream is owed. */
  ghost function Owed(user: UserProfile, sessionKey: string, message: Message): nat {
    if message.visibility.Library? && !user.role.IsAdmin() then
      Occurrences(user.libraryIds, message.visibility.libraryId)
    else if message.IsVisibleTo(user, sessionKey) then 1
    else 0
  }

  lemma TwoCounted(a: nat, b: nat, targets: set<nat>)
    ensures CountIn([a, b], targets) == (if a in targets then 1 else 0) + (if b in targets then 1 else 0)
  {
    assert [a, b][1..] == [b];
    assert CountIn([b], targets) == (if b in targets then 1 else 0) + CountIn([b][1..], targets);
  }

  lemma ThreePartsCounted(a: seq<nat>, b: seq<nat>, c: seq<nat>, targets: set<nat>)
    ensures CountIn(a + b + c, targets) == CountIn(a, targets) + CountIn(b, targets) + CountIn(c, targets)
  {
    CountInConcat(a + b, c, targets);
    CountInConcat(a, b, targets);
  }

  /** A library's own channel is counted below; the others are hit exactly by the messages of their scope. */
  lemma FixedChannelsHit(s: HubState, user: UserProfile, sessionKey: string, message: Message)
    requires SendersDistinct(s) && Opened(s, user, sessionKey)
    ensures PUBLIC_CHANNEL in Targets(s, message) <==> message.visibility.Public?
    ensures s.userSenders[user.id] in Targets(s, message) <==> message.visibility == User(user.id)
    ensures s.sessionSenders[sessionKey] in Targets(s, message) <==> message.visibility == Session(sessionKey)
    ensures ADMIN_CHANNEL in Targets(s, message) <==> message.visibility.AdminOnly? || message.visibility.Library?
  {
    match message.visibility {
      case Public =>
      case AdminOnly =>
      case Library(library) => assert library in s.librarySenders ==> s.librarySenders[library] >= 2;
      case User(id) => assert id in s.userSenders ==> s.userSenders[id] >= 2;
      case Session(key) => assert key in s.sessionSenders ==> s.sessionSenders[key] >= 2;
    }
  }

  lemma ChannelsCounted(s: HubState, user: UserProfile, sessionKey: string, message: Message)
    requires SendersDistinct(s) && Opened(s, user, sessionKey)
    ensures CountIn(Channels(s, user, sessionKey), Targets(s, message)) == Owed(user, sessionKey, message)
  {
    var targets := Targets(s, message);
    var head := [PUBLIC_CHANNEL, s.userSenders[user.id]];
    var middle := if user.role.IsAdmin() then [ADMIN_CHANNEL] else LibraryChannels(s, user.libraryIds);
    var tail := [s.sessionSenders[sessionKey]];
    assert Channels(s, user, sessionKey) == head + middle + tail;
    ThreePartsCounted(head, middle, tail, targets);
    TwoCounted(PUBLIC_CHANNEL, s.userSenders[user.id], targets);
    FixedChannelsHit(s, user, sessionKey, message);
    if !user.role.IsAdmin() {
      LibraryChannelsCounted(s, user.libraryIds, message);
    }
  }

  lemma SendKeepsStream(s: HubState, channel: nat, message: Message, id: nat)
    requires id in s.subscribers
    ensures id in Send(s, channel, message).subscribers
    ensures Send(s, channel, message).subscribers[id].user == s.subscribers[id].user
    ensures Send(s, channel, message).subscribers[id].sessionKey == s.subscribers[id].sessionKey
  {
  }

  lemma PublishKeepsStream(s: HubState, message: Message, id: nat)
    requires id in s.subscribers
    ensures id in PublishTo(s, message).subscribers
    ensures PublishTo(s, message).subscribers[id].user == s.subscribers[id].user
    ensures PublishTo(s, message).subscribers[id].sessionKey == s.subscribers[id].sessionKey
  {
    match message.visibility {
      case Public => SendKeepsStream(s, PUBLIC_CHANNEL, message, id);
      case AdminOnly => SendKeepsStream(s, ADMIN_CHANNEL, message, id);
      case Library(library) =>
        var scoped := WithLibrary(Send(s, ADMIN_CHANNEL, message), library);
        SendKeepsStream(s, ADMIN_CHANNEL, message, id);
        SendKeepsStream(scoped, scoped.librarySenders[library], message, id);
      case User(user) => SendKeepsStream(WithUser(s, user), WithUser(s, user).userSenders[user], message, id);
      case Session(key) =>
        if key in s.sessionSenders {
          SendKeepsStream(s, s.sessionSenders[key], message, id);
        }
    }
  }

  lemma DeliveriesOwed(s: HubState, message: Message, id: nat)
    requires Inv(s) && id in s.subscribers
    ensures var x, s' := s.subscribers[id], PublishTo(s, message);
      && id in s'.subscribers && |x.receivers| == |s'.subscribers[id].receivers|
      && Deliveries(x.receivers, s'.subscribers[id].receivers, message) == Owed(x.user, x.sessionKey, message)
  {
    PublishReceived(s, message, id);
    PublishKeepsInv(s, message);
    PublishKeepsStream(s, message, id);
    StreamOwed(s.subscribers[id].receivers, PublishTo(s, message), message, id);
  }

  lemma StreamOwed(before: seq<Receiver>, s': HubState, message: Message, id: nat)
    requires SendersDistinct(s') && id in s'.subscribers && Listens(s', s'.subscribers[id])
    requires ReceivedOn(before, s'.subscribers[id].receivers, Targets(s', message), message)
    ensures var x' := s'.subscribers[id];
      Deliveries(before, x'.receivers, message) == Owed(x'.user, x'.sessionKey, message)
  {
    var x' := s'.subscribers[id];
    DeliveriesAreCounted(before, x'.receivers, Targets(s', message), message, Channels(s', x'.user, x'.sessionKey));
    ChannelsCounted(s', x'.user, x'.sessionKey, message);
  }

  // ---- Main results ----

  ghost predicate ExactlyOnce(s: HubState, id: nat, message: Message)
    requires id in s.subscribers
  {
    var x, s' := s.subscribers[id], PublishTo(s, message);
    && id in s'.subscribers && |x.receivers| == |s'.subscribers[id].receivers|
    && Deliveries(x.receivers, s'.subscribers[id].receivers, message)
       == if message.IsVisibleTo(x.user, x.sessionKey) then 1 else 0
  }

  /** In every reachable hub a live stream gets a message at least once exactly when it may see it. */
  lemma RoutingEqualsVisibility(start: HubState, events: seq<Event>, message: Message, id: nat)
    requires Start(start) && Runs(start, events) && id in Run(start, events).subscribers
    ensures var s := Run(start, events);
      var x, s' := s.subscribers[id], PublishTo(s, message);
      && id in s'.subscribers && |x.receivers| == |s'.subscribers[id].receivers|
      && Deliveries(x.receivers, s'.subscribers[id].receivers, message) == Owed(x.user, x.sessionKey, message)
      && (Owed(x.user, x.sessionKey, message) > 0 <==> message.IsVisibleTo(x.user, x.sessionKey))
  {
    RunKeepsInv(start, events);
    var s := Run(start, events);
    DeliveriesOwed(s, message, id);
    if message.visibility.Library? {
      OccurrencesOfMember(s.subscribers[id].user.libraryIds, message.visibility.libraryId);
    }
  }

  lemma OwedOnce(user: UserProfile, sessionKey: string, message: Message)
    requires user.role.IsAdmin() || NothingRepeated(user.libraryIds)
    ensures Owed(user, sessionKey, message) == if message.IsVisibleTo(user, sessionKey) then 1 else 0
  {
    if message.visibility.Library? {
      OccurrencesOfMember(user.libraryIds, message.visibility.libraryId);
    }
  }

  ghost predicate NothingRepeated(libraries: seq<int>) {
    forall i, j | 0 <= i < j < |libraries| :: libraries[i] != libraries[j]
  }

  lemma OnceWhenNothingRepeated(s: HubState, id: nat, message: Message)
    requires Inv(s) && id in s.subscribers
    requires s.subscribers[id].user.role.IsAdmin() || NothingRepeated(s.subscribers[id].user.libraryIds)
    ensures ExactlyOnce(s, id, message)
  {
    DeliveriesOwed(s, message, id);
    OwedOnce(s.subscribers[id].user, s.subscribers[id].sessionKey, message);
  }

  lemma TwiceWhenRepeated(s: HubState, id: nat, i: nat, j: nat)
    requires Inv(s) && id in s.subscribers && !s.subscribers[id].user.role.IsAdmin()
    requires i < j < |s.subscribers[id].user.libraryIds|
    requires s.subscribers[id].user.libraryIds[i] == s.subscribers[id].user.libraryIds[j]
    ensures !ExactlyOnce(s, id, Message("", "", Library(s.subscribers[id].user.libraryIds[i])))
  {
    RepeatedOccurs(s.subscribers[id].user.libraryIds, i, j);
    DeliveriesOwed(s, Message("", "", Library(s.subscribers[id].user.libraryIds[i])), id);
  }

  /** It gets every message it may see on exactly one receiver, unless its library list repeats an entry. */
  lemma ExactlyOnceUnlessRepeated(start: HubState, events: seq<Event>, id: nat)
    requires Start(start) && Runs(start, events) && id in Run(start, events).subscribers
    ensures var s := Run(start, events);
      (forall message :: ExactlyOnce(s, id, message)) <==>
        s.subscribers[id].user.role.IsAdmin() || NothingRepeated(s.subscribers[id].user.libraryIds)
  {
    RunKeepsInv(start, events);
    var s := Run(start, events);
    var user := s.subscribers[id].user;
    if user.role.IsAdmin() || NothingRepeated(user.libraryIds) {
      forall message: Message {
        OnceWhenNothingRepeated(s, id, message);
      }
    } else {
      var i, j :| 0 <= i < j < |user.libraryIds| && user.libraryIds[i] == user.libraryIds[j];
      TwiceWhenRepeated(s, id, i, j);
    }
  }

  lemma {:induction false} RepeatedOccurs(libraries: seq<int>, i: nat, j: nat)
    requires i < j < |libraries| && libraries[i] == libraries[j]
    ensures Occurrences(libraries, libraries[i]) >= 2
  {
    if i == 0 {
      OccurrencesOfMember(libraries[1..], libraries[0]);
      assert libraries[1..][j - 1] == libraries[0];
    } else {
      RepeatedOccurs(libraries[1..], i - 1, j - 1);
    }
  }

  // ---- The hub object ----

  class RealtimeHub {
    var librarySenders: map<int, nat>
    var userSenders: map<int, nat>
    var sessionSenders: map<string, nat>
    var nextChannel: nat
    var subscribers: map<nat, Subscriber>   // live streams and their receivers

    function State(): HubState
      reads this
    {
      HubState(librarySenders, userSenders, sessionSenders, nextChannel, subscribers)
    }

    constructor ()
      ensures Start(State())
    {
      librarySenders, userSenders, sessionSenders, nextChannel, subscribers := map[], map[], map[], 2, map[];
    }

    method SendOn(channel: nat, message: Message)
      modifies this`subscribers
      ensures State() == Send(old(State()), channel, message)
    {
      subscribers := map id | id in subscribers ::
        subscribers[id].(receivers := Receive(subscribers[id].receivers, channel, message));
    }

    method LibrarySender(library: int) returns (channel: nat)
      modifies this`librarySenders, this`nextChannel
      ensures State() == WithLibrary(old(State()), library)
      ensures library in librarySenders && channel == librarySenders[library]
    {
      if library !in librarySenders {
        librarySenders := librarySenders[library := nextChannel];
        nextChannel := nextChannel + 1;
      }
      channel := librarySenders[library];
    }

    method UserSender(user: int) returns (channel: nat)
      modifies this`userSenders, this`nextChannel
      ensures State() == WithUser(old(State()), user)
      ensures user in userSenders && channel == userSenders[user]
    {
      if user !in userSenders {
        userSenders := userSenders[user := nextChannel];
        nextChannel := nextChannel + 1;
      }
      channel := userSenders[user];
    }

    method Publish(message: Message)
      modifies this
      ensures State() == Apply(old(State()), Event.Publish(message))
    {
      match message.visibility {
        case Public => SendOn(PUBLIC_CHANNEL, message);
        case AdminOnly => SendOn(ADMIN_CHANNEL, message);
        case Library(library) =>
          SendOn(ADMIN_CHANNEL, message);
          var channel := LibrarySender(library);
          SendOn(channel, message);
        case User(user) =>
          var channel := UserSender(user);
          SendOn(channel, message);
        case Session(key) =>
          if key in sessionSenders {
            SendOn(sessionSenders[key], message);
          }
      }
    }

    method Subscribe(id: nat, user: UserProfile, sessionKey: string)
      requires id !in subscribers
      modifies this
      ensures State() == Apply(old(State()), Event.Subscribe(id, user, sessionKey))
    {
      var _ := UserSender(user.id);
      if !user.role.IsAdmin() {
        ghost var scoped := State();
        var i := 0;
        while i < |user.libraryIds|
          invariant i <= |user.libraryIds|
          invariant WithLibraries(State(), user.libraryIds[i..]) == WithLibraries(scoped, user.libraryIds)
        {
          assert user.libraryIds[i..][1..] == user.libraryIds[i + 1..];
          var _ := LibrarySender(user.libraryIds[i]);
          i := i + 1;
        }
      }
      if sessionKey !in sessionSenders {
        sessionSenders := sessionSenders[sessionKey := nextChannel];
        nextChannel := nextChannel + 1;
      }
      OpenChannelsOpens(old(State()), user, sessionKey);
      subscribers := subscribers[id := Subscriber(user, sessionKey, Listen(Channels(State(), user, sessionKey)))];
    }

    /** The stream is dropped with its receivers; its session channel goes in a second step. */
    method Disconnect(id: nat)
      requires id in subscribers
      modifies this
      ensures State() == Apply(old(State()), Event.Disconnect(id))
    {
      subscribers := subscribers - {id};
    }

    method UnsubscribeSession(sessionKey: string)
      modifies this
      ensures State() == Apply(old(State()), Event.UnsubscribeSession(sessionKey))
    {
      if sessionKey in sessionSenders && !HasReceivers(State(), sessionSenders[sessionKey]) {
        sessionSenders := sessionSenders - {sessionKey};
      }
    }
  }
}
