/**
 The MQTT side as a state machine: bridge clients, the map they are registered in,
 and the callbacks of the MQTT library, which run on their own.  Connect holds the
 manager's lock from Begin to Fail or Register; the library's steps may come between.
 */
module Bridges {
  import opened Common

  datatype TopicSubscription = TopicSubscription(topic: string, messageType: string)

  /** What of an MQTTBridge resource the manager acts on. */
  datatype Bridge = Bridge(key: string, deviceType: string, topics: seq<TopicSubscription>)

  /** A client of the MQTT library that reconnects by itself until it is told to disconnect. */
  datatype Status = Dialing | Up | Reconnecting | Closed

  /** The library's IsConnected. */
  predicate IsLive(s: Status) {
    s.Up? || s.Reconnecting?
  }

  /**
   A bridge connection with its client.  assigned tells whether mqttClient is set;
   subs is what the broker's session holds, from topic to the type its handler passes on;
   due and lostDue count callbacks that the library has started and that have not run yet.
   */
  datatype Link = Link(bridge: Bridge, status: Status, hasClient: bool, connected: bool,
                       subs: map<string, string>, due: nat, lostDue: nat)

  datatype BridgeState = BridgeState(links: seq<Link>, bridges: map<string, nat>, inFlight: Option<nat>)

  const INITIAL: BridgeState := BridgeState([], map[], None)

  // ------------------------------------------------------------------ subscriptions

  predicate IsSensorType(messageType: string) {
    messageType == "telemetry" || messageType == "sensor"
  }

  /** Subscribing to the topics in order on top of what the session holds; the broker refuses some of them. */
  function Subscribe(subs: map<string, string>, topics: seq<TopicSubscription>, refused: set<nat>): map<string, string> {
    if topics == [] then subs
    else
      var i := |topics| - 1;
      var before := Subscribe(subs, topics[..i], refused);
      if IsSensorType(topics[i].messageType) && i !in refused then before[topics[i].topic := topics[i].messageType]
      else before
  }

  /** Topic entry i decides what is passed on for its topic: it is a sensor topic, and no later entry for the topic is. */
  ghost predicate Decides(topics: seq<TopicSubscription>, i: nat, topic: string, messageType: string) {
    && i < |topics| && topics[i] == TopicSubscription(topic, messageType) && IsSensorType(messageType)
    && forall j :: i < j < |topics| && topics[j].topic == topic ==> !IsSensorType(topics[j].messageType)
  }

  /** Exactly the sensor topics, each with the type of its deciding entry. */
  ghost predicate FullySubscribed(l: Link) {
    && (forall t :: t in l.subs ==> exists i: nat :: Decides(l.bridge.topics, i, t, l.subs[t]))
    && (forall i: nat :: i < |l.bridge.topics| && IsSensorType(l.bridge.topics[i].messageType) ==> l.bridge.topics[i].topic in l.subs)
  }

  /** Every subscription stands for some entry of the list. */
  ghost predicate OwnTopics(l: Link) {
    forall t :: t in l.subs ==> IsSensorType(l.subs[t]) && TopicSubscription(t, l.subs[t]) in l.bridge.topics
  }

  // -------------------------------------------------------------------------- steps

  function SetLink(s: BridgeState, id: nat, l: Link): BridgeState
    requires id < |s.links|
  {
    s.(links := s.links[id := l])
  }

  /** mqttClient != nil && mqttClient.IsConnected(): then Disconnect; the connected field is not touched. */
  function CloseLink(l: Link): Link {
    if l.hasClient && IsLive(l.status) then l.(status := Closed, subs := map[]) else l
  }

  function CloseExisting(s: BridgeState, key: string): BridgeState {
    if key in s.bridges && s.bridges[key] < |s.links|
    then SetLink(s, s.bridges[key], CloseLink(s.links[s.bridges[key]]))
    else s
  }

  function NewLink(b: Bridge): Link {
    Link(b, Dialing, false, false, map[], 0, 0)
  }

  datatype Step =
    | Begin(bridge: Bridge, credentialsFail: bool)  // Connect up to the dialling of a new client
    | Fail                                          // the dial fails, and so does Connect
    | Establish                                     // the broker accepts
    | Register                                      // Connect stores the client and returns
    | Disconnect(key: string)
    | Lost(id: nat)                                 // the connection breaks; the broker drops the session
    | Reconnected(id: nat)
    | OnConnect(id: nat, refused: set<nat>)         // one onConnect callback runs
    | OnConnectionLost(id: nat)                     // one onConnectionLost callback runs

  predicate Enabled(s: BridgeState, step: Step) {
    match step
    case Begin(_, _) => s.inFlight.None?
    case Fail => s.inFlight.Some? && s.inFlight.value < |s.links| && s.links[s.inFlight.value].status.Dialing?
    case Establish => s.inFlight.Some? && s.inFlight.value < |s.links| && s.links[s.inFlight.value].status.Dialing?
    case Register => s.inFlight.Some? && s.inFlight.value < |s.links| && !s.links[s.inFlight.value].status.Dialing?
    case Disconnect(_) => s.inFlight.None?
    case Lost(id) => id < |s.links| && s.links[id].status.Up?
    case Reconnected(id) => id < |s.links| && s.links[id].status.Reconnecting?
    case OnConnect(id, _) => id < |s.links| && s.links[id].due > 0
    case OnConnectionLost(id) => id < |s.links| && s.links[id].lostDue > 0
  }

  function BeginState(s: BridgeState, b: Bridge, credentialsFail: bool): BridgeState {
    var s1 := CloseExisting(s, b.key);
    if credentialsFail then s1 else s1.(links := s1.links + [NewLink(b)], inFlight := Some(|s1.links|))
  }

  function DisconnectState(s: BridgeState, key: string): BridgeState {
    var s1 := CloseExisting(s, key);
    s1.(bridges := s1.bridges - {key})
  }

  /** onConnect: subscribes only when the client is assigned and its connection is open. */
  function Greeted(l: Link, refused: set<nat>): Link
    requires l.due > 0
  {
    l.(due := l.due - 1, connected := true,
       subs := if l.hasClient && l.status.Up? then Subscribe(l.subs, l.bridge.topics, refused) else l.subs)
  }

  function Next(s: BridgeState, step: Step): BridgeState
    requires Enabled(s, step)
  {
    match step
    case Begin(b, credentialsFail) => BeginState(s, b, credentialsFail)
    case Fail => SetLink(s, s.inFlight.value, s.links[s.inFlight.value].(status := Closed)).(inFlight := None)
    case Establish =>
      var l := s.links[s.inFlight.value];
      SetLink(s, s.inFlight.value, l.(status := Up, due := l.due + 1))
    case Register =>
      var l := s.links[s.inFlight.value];
      SetLink(s, s.inFlight.value, l.(hasClient := true, connected := true)).(
        bridges := s.bridges[l.bridge.key := s.inFlight.value], inFlight := None)
    case Disconnect(key) => DisconnectState(s, key)
    case Lost(id) =>
      var l := s.links[id];
      SetLink(s, id, l.(status := Reconnecting, subs := map[], lostDue := l.lostDue + 1))
    case Reconnected(id) =>
      var l := s.links[id];
      SetLink(s, id, l.(status := Up, due := l.due + 1))
    case OnConnect(id, refused) => SetLink(s, id, Greeted(s.links[id], refused))
    case OnConnectionLost(id) =>
      var l := s.links[id];
      SetLink(s, id, l.(connected := false, lostDue := l.lostDue - 1))
  }

  /** Steps in turn; one that is not possible when its turn comes does nothing. */
  function RunSteps(s: BridgeState, steps: seq<Step>): BridgeState
    decreases |steps|
  {
    if steps == [] then s
    else RunSteps(if Enabled(s, steps[0]) then Next(s, steps[0]) else s, steps[1..])
  }

  predicate IsConnected(s: BridgeState, key: string) {
    key in s.bridges && s.bridges[key] < |s.links| && var l := s.links[s.bridges[key]];
    l.connected && l.hasClient && IsLive(l.status)
  }

  // --------------------------------------------------------------- no client is leaked

  /** The link can be reached: it is registered under its own key, or Connect is just making it. */
  ghost predicate Reachable(s: BridgeState, id: nat)
    requires id < |s.links|
  {
    || s.inFlight == Some(id)
    || (s.links[id].bridge.key in s.bridges && s.bridges[s.links[id].bridge.key] == id)
  }

  ghost predicate InFlightFits(s: BridgeState) {
    s.inFlight.Some? ==>
      var f := s.inFlight.value;
      && f < |s.links| && !s.links[f].hasClient && !s.links[f].status.Closed?
      && forall key :: key in s.bridges ==> s.bridges[key] != f
  }

  ghost predicate LinkFits(s: BridgeState, id: nat)
    requires id < |s.links|
  {
    var l := s.links[id];
    && (IsLive(l.status) ==> Reachable(s, id))
    && (l.status.Dialing? ==> s.inFlight == Some(id))
    && (!l.status.Up? ==> l.subs == map[])
    && OwnTopics(l)
  }

  /** While Connect dials for a key, the client it replaces is already gone. */
  ghost predicate ReplacedIsGone(s: BridgeState) {
    s.inFlight.Some? && s.inFlight.value < |s.links| ==>
      var key := s.links[s.inFlight.value].bridge.key;
      key in s.bridges && s.bridges[key] < |s.links| ==> s.links[s.bridges[key]].status.Closed?
  }

  ghost predicate RegisteredFit(s: BridgeState) {
    forall key :: key in s.bridges ==>
      s.bridges[key] < |s.links| && s.links[s.bridges[key]].bridge.key == key && s.links[s.bridges[key]].hasClient
      && !s.links[s.bridges[key]].status.Dialing?
  }

  ghost predicate Inv(s: BridgeState) {
    && InFlightFits(s) && ReplacedIsGone(s) && RegisteredFit(s)
    && forall id: nat :: id < |s.links| ==> LinkFits(s, id)
  }

  lemma {:induction false} SubscribeOwnTopics(subs: map<string, string>, topics: seq<TopicSubscription>, refused: set<nat>, t: string)
    requires t in Subscribe(subs, topics, refused)
    ensures var messageType := Subscribe(subs, topics, refused)[t];
            (t in subs && subs[t] == messageType)
            || (IsSensorType(messageType) && TopicSubscription(t, messageType) in topics)
    decreases |topics|
  {
    if topics != [] {
      var i := |topics| - 1;
      if t in Subscribe(subs, topics[..i], refused) {
        SubscribeOwnTopics(subs, topics[..i], refused, t);
      }
    }
  }

  /** A step that changes one link, keeping its bridge, and neither the map nor the lock. */
  lemma SetLinkKeeps(s: BridgeState, id: nat, l: Link)
    requires Inv(s) && id < |s.links|
    requires l.bridge == s.links[id].bridge && l.hasClient == s.links[id].hasClient
    requires l.status.Dialing? ==> s.links[id].status.Dialing?
    requires IsLive(l.status) ==> IsLive(s.links[id].status) || s.links[id].status.Dialing?
    requires l.status.Closed? <==> s.links[id].status.Closed?
    requires (!l.status.Up? ==> l.subs == map[]) && OwnTopics(l)
    ensures Inv(SetLink(s, id, l))
  {
    var s' := SetLink(s, id, l);
    forall i: nat | i < |s'.links| ensures LinkFits(s', i) {
      assert LinkFits(s, i) && LinkFits(s, id);
    }
  }

  lemma CloseKeeps(s: BridgeState, key: string)
    requires Inv(s) && s.inFlight.None?
    ensures var s' := CloseExisting(s, key);
            Inv(s') && |s'.links| == |s.links| && s'.bridges == s.bridges && s'.inFlight.None?
            && (key in s'.bridges ==> s'.links[s'.bridges[key]].status.Closed?)
            && (forall id: nat :: id < |s.links| ==> s'.links[id].bridge == s.links[id].bridge)
            && (forall id: nat :: id < |s.links| && IsLive(s'.links[id].status) ==> s'.links[id].bridge.key != key)
  {
    var s' := CloseExisting(s, key);
    forall i: nat | i < |s'.links| ensures LinkFits(s', i) && (IsLive(s'.links[i].status) ==> s'.links[i].bridge.key != key) {
      assert LinkFits(s, i);
    }
  }

  lemma BeginKeeps(s: BridgeState, b: Bridge, credentialsFail: bool)
    requires Inv(s) && s.inFlight.None?
    ensures Inv(BeginState(s, b, credentialsFail))
  {
    CloseKeeps(s, b.key);
    var s1 := CloseExisting(s, b.key);
    var s' := BeginState(s, b, credentialsFail);
    if !credentialsFail {
      forall i: nat | i < |s'.links| ensures LinkFits(s', i) {
        if i < |s1.links| { assert LinkFits(s1, i); }
      }
    }
  }

  lemma DisconnectKeeps(s: BridgeState, key: string)
    requires Inv(s) && s.inFlight.None?
    ensures Inv(DisconnectState(s, key))
  {
    CloseKeeps(s, key);
    var s1, s' := CloseExisting(s, key), DisconnectState(s, key);
    forall i: nat | i < |s'.links| ensures LinkFits(s', i) {
      assert LinkFits(s1, i);
    }
  }

  lemma FailKeeps(s: BridgeState)
    requires Inv(s) && Enabled(s, Fail)
    ensures Inv(Next(s, Fail))
  {
    var s' := Next(s, Fail);
    forall i: nat | i < |s'.links| ensures LinkFits(s', i) {
      assert LinkFits(s, i);
    }
  }

  lemma RegisterKeeps(s: BridgeState)
    requires Inv(s) && Enabled(s, Register)
    ensures Inv(Next(s, Register))
  {
    var s' := Next(s, Register);
    forall i: nat | i < |s'.links| ensures LinkFits(s', i) {
      assert LinkFits(s, i);
    }
  }

  lemma NextKeeps(s: BridgeState, step: Step)
    requires Inv(s) && Enabled(s, step)
    ensures Inv(Next(s, step))
  {
    match step
    case Begin(b, credentialsFail) => BeginKeeps(s, b, credentialsFail);
    case Fail => FailKeeps(s);
    case Register => RegisterKeeps(s);
    case Disconnect(key) => DisconnectKeeps(s, key);
    case Establish =>
      var l := s.links[s.inFlight.value];
      assert LinkFits(s, s.inFlight.value);
      SetLinkKeeps(s, s.inFlight.value, l.(status := Up, due := l.due + 1));
    case Lost(id) =>
      var l := s.links[id];
      SetLinkKeeps(s, id, l.(status := Reconnecting, subs := map[], lostDue := l.lostDue + 1));
    case Reconnected(id) =>
      var l := s.links[id];
      assert LinkFits(s, id);
      SetLinkKeeps(s, id, l.(status := Up, due := l.due + 1));
    case OnConnect(id, refused) =>
      var l := s.links[id];
      assert LinkFits(s, id);
      forall t | t in Subscribe(l.subs, l.bridge.topics, refused) ensures
        var m := Subscribe(l.subs, l.bridge.topics, refused)[t]; IsSensorType(m) && TopicSubscription(t, m) in l.bridge.topics {
        SubscribeOwnTopics(l.subs, l.bridge.topics, refused, t);
      }
      SetLinkKeeps(s, id, Greeted(l, refused));
    case OnConnectionLost(id) =>
      var l := s.links[id];
      assert LinkFits(s, id);
      SetLinkKeeps(s, id, l.(connected := false, lostDue := l.lostDue - 1));
  }

  lemma {:induction false} RunKeeps(s: BridgeState, steps: seq<Step>)
    requires Inv(s)
    ensures Inv(RunSteps(s, steps))
    decreases |steps|
  {
    if steps != [] {
      if Enabled(s, steps[0]) {
        NextKeeps(s, steps[0]);
        RunKeeps(Next(s, steps[0]), steps[1..]);
      } else {
        RunKeeps(s, steps[1..]);
      }
    }
  }

  /**
   No leaked client: in every reachable state a client that is connected or will
   reconnect is the registered one of its bridge, or the one that a running Connect
   is about to register, and no bridge has two of them.
   */
  lemma NoLeakedClient(steps: seq<Step>, id: nat)
    requires var s := RunSteps(INITIAL, steps); id < |s.links| && IsLive(s.links[id].status)
    ensures var s := RunSteps(INITIAL, steps);
            && Reachable(s, id)
            && forall other: nat | other < |s.links| && IsLive(s.links[other].status)
                 && s.links[other].bridge.key == s.links[id].bridge.key :: other == id
  {
    RunKeeps(INITIAL, steps);
    var s := RunSteps(INITIAL, steps);
    assert LinkFits(s, id);
    forall other: nat | other < |s.links| && IsLive(s.links[other].status) && s.links[other].bridge.key == s.links[id].bridge.key
      ensures other == id
    {
      assert LinkFits(s, other);
    }
  }

  /** Only sensor types are ever passed on. */
  lemma SubscribedIsSensorType(s: BridgeState, id: nat, topic: string)
    requires Inv(s) && id < |s.links| && topic in s.links[id].subs
    ensures IsSensorType(s.links[id].subs[topic])
  {
    assert LinkFits(s, id);
  }

  /** IsConnected answers for the one live client that the bridge has. */
  lemma ConnectedMeansLive(steps: seq<Step>, key: string, other: nat)
    requires IsConnected(RunSteps(INITIAL, steps), key)
    ensures var s := RunSteps(INITIAL, steps); var id := s.bridges[key];
            && s.links[id].bridge.key == key && IsLive(s.links[id].status)
            && (other < |s.links| && s.links[other].bridge.key == key && IsLive(s.links[other].status) ==> other == id)
  {
    RunKeeps(INITIAL, steps);
    var s := RunSteps(INITIAL, steps);
    NoLeakedClient(steps, s.bridges[key]);
  }

  /** The link's client is assigned, and the link does not count as connected. */
  ghost predicate IsDown(s: BridgeState, id: nat) {
    id < |s.links| && s.links[id].hasClient && !s.links[id].connected
  }

  lemma {:induction false} StaysDown(s: BridgeState, steps: seq<Step>, id: nat)
    requires Inv(s) && IsDown(s, id) && forall i :: 0 <= i < |steps| ==> !(steps[i].OnConnect? && steps[i].id == id)
    ensures IsDown(RunSteps(s, steps), id)
    decreases |steps|
  {
    if steps != [] {
      if Enabled(s, steps[0]) {
        NextKeeps(s, steps[0]);
        StaysDown(Next(s, steps[0]), steps[1..], id);
      } else {
        StaysDown(s, steps[1..], id);
      }
    }
  }

  /**
   Once the loss callback of a bridge's client has run, the bridge is not connected, whatever
   happens, until that client is greeted again or the bridge has another one; and a greeting
   of a live client makes it connected.
   */
  lemma NotConnectedUntilGreeted(s: BridgeState, id: nat, steps: seq<Step>, key: string, refused: set<nat>)
    requires Inv(s) && key in s.bridges && s.bridges[key] == id && Enabled(s, OnConnectionLost(id))
    requires forall i :: 0 <= i < |steps| ==> !(steps[i].OnConnect? && steps[i].id == id)
    ensures var end := RunSteps(Next(s, OnConnectionLost(id)), steps);
            && (key in end.bridges && end.bridges[key] == id ==> !IsConnected(end, key))
            && (key in end.bridges && end.bridges[key] == id && Enabled(end, OnConnect(id, refused)) && IsLive(end.links[id].status) ==>
                  IsConnected(Next(end, OnConnect(id, refused)), key))
  {
    NextKeeps(s, OnConnectionLost(id));
    StaysDown(Next(s, OnConnectionLost(id)), steps, id);
  }

  // -------------------------------------------------------------- what is gone stays gone

  /** The client is closed for good. */
  ghost predicate Gone(s: BridgeState, id: nat) {
    id < |s.links| && s.links[id].status.Closed?
  }

  lemma GoneStays(s: BridgeState, step: Step, id: nat)
    requires Inv(s) && Enabled(s, step) && Gone(s, id)
    ensures Gone(Next(s, step), id)
  {
  }

  lemma {:induction false} GoneForever(s: BridgeState, steps: seq<Step>, id: nat)
    requires Inv(s) && Gone(s, id)
    ensures Gone(RunSteps(s, steps), id)
    decreases |steps|
  {
    if steps != [] {
      if Enabled(s, steps[0]) {
        GoneStays(s, steps[0], id);
        NextKeeps(s, steps[0]);
        GoneForever(Next(s, steps[0]), steps[1..], id);
      } else {
        GoneForever(s, steps[1..], id);
      }
    }
  }

  /**
   A client that was registered is gone from the moment Connect or Disconnect for
   its bridge has taken the lock, and never comes back, also when that Connect then
   fails and its dead entry stays in the map.
   */
  lemma ReplacedNeverReturns(before: seq<Step>, b: Bridge, credentialsFail: bool, after: seq<Step>)
    requires var s := RunSteps(INITIAL, before); s.inFlight.None? && b.key in s.bridges
    ensures var s := RunSteps(INITIAL, before); var id := s.bridges[b.key];
            && Gone(RunSteps(Next(s, Begin(b, credentialsFail)), after), id)
            && Gone(RunSteps(Next(s, Disconnect(b.key)), after), id)
            && (credentialsFail ==> var s' := Next(s, Begin(b, credentialsFail)); s'.bridges == s.bridges && !IsConnected(s', b.key))
  {
    var s := RunSteps(INITIAL, before);
    RunKeeps(INITIAL, before);
    CloseKeeps(s, b.key);
    NextKeeps(s, Begin(b, credentialsFail));
    NextKeeps(s, Disconnect(b.key));
    GoneForever(Next(s, Begin(b, credentialsFail)), after, s.bridges[b.key]);
    GoneForever(Next(s, Disconnect(b.key)), after, s.bridges[b.key]);
  }

  // ------------------------------------------------------------ subscription restoration

  ghost predicate NoSensorEntry(topics: seq<TopicSubscription>, t: string) {
    forall i :: 0 <= i < |topics| && topics[i].topic == t ==> !IsSensorType(topics[i].messageType)
  }

  lemma {:induction false} SubscribeAll(subs: map<string, string>, topics: seq<TopicSubscription>, t: string)
    ensures var r := Subscribe(subs, topics, {});
            if NoSensorEntry(topics, t) then (t in r <==> t in subs) && (t in r ==> r[t] == subs[t])
            else t in r && exists i: nat :: Decides(topics, i, t, r[t])
    decreases |topics|
  {
    if topics != [] {
      var n := |topics| - 1;
      var init := topics[..n];
      SubscribeAll(subs, init, t);
      if topics[n].topic == t && IsSensorType(topics[n].messageType) {
        assert Decides(topics, n, t, topics[n].messageType);
        assert !NoSensorEntry(topics, t);
      } else if NoSensorEntry(init, t) {
        assert NoSensorEntry(topics, t);
      } else {
        var i: nat :| Decides(init, i, t, Subscribe(subs, init, {})[t]);
        assert Decides(topics, i, t, Subscribe(subs, init, {})[t]);
        assert !NoSensorEntry(topics, t);
      }
    }
  }

  /**
   After an onConnect whose subscribes are all accepted, the subscriptions are
   exactly the telemetry and sensor topics, each passing on its own type, if the
   client was assigned and up, and otherwise they are what they were.
   */
  lemma SubscriptionRestored(l: Link)
    requires l.due > 0 && OwnTopics(l)
    ensures var l' := Greeted(l, {});
            FullySubscribed(l') <==> (l.hasClient && l.status.Up?) || FullySubscribed(l)
  {
    var l' := Greeted(l, {});
    if l.hasClient && l.status.Up? {
      forall t | t in l'.subs ensures exists i: nat :: Decides(l.bridge.topics, i, t, l'.subs[t]) {
        SubscribeAll(l.subs, l.bridge.topics, t);
        if t in l.subs {
          var k :| 0 <= k < |l.bridge.topics| && l.bridge.topics[k] == TopicSubscription(t, l.subs[t]);
        }
      }
      forall i: nat | i < |l.bridge.topics| && IsSensorType(l.bridge.topics[i].messageType)
        ensures l.bridge.topics[i].topic in l'.subs
      {
        SubscribeAll(l.subs, l.bridge.topics, l.bridge.topics[i].topic);
      }
    }
  }

  /** Entry i is one of type telemetry or sensor for the topic. */
  ghost predicate IsEntryFor(topics: seq<TopicSubscription>, i: nat, topic: string) {
    i < |topics| && topics[i].topic == topic && topics[i].messageType in {"telemetry", "sensor"}
  }

  ghost predicate IsLastEntryFor(topics: seq<TopicSubscription>, i: nat, topic: string) {
    IsEntryFor(topics, i, topic) && forall j: nat :: j > i ==> !IsEntryFor(topics, j, topic)
  }

  /** subs has every topic of type telemetry or sensor with the type of its last such entry, and else only what was there. */
  ghost predicate AddsSensorTopics(before: map<string, string>, topics: seq<TopicSubscription>, subs: map<string, string>) {
    && (forall t :: t in subs <==> t in before || exists i: nat :: IsEntryFor(topics, i, t))
    && (forall t, i: nat :: IsLastEntryFor(topics, i, t) ==> t in subs && subs[t] == topics[i].messageType)
  }

  lemma SensorTypes(messageType: string)
    ensures IsSensorType(messageType) <==> messageType in {"telemetry", "sensor"}
  {
  }

  lemma EntriesDecide(topics: seq<TopicSubscription>, t: string, i: nat)
    ensures IsLastEntryFor(topics, i, t) <==> i < |topics| && Decides(topics, i, t, topics[i].messageType)
    ensures NoSensorEntry(topics, t) <==> forall j: nat :: !IsEntryFor(topics, j, t)
  {
    if i < |topics| && Decides(topics, i, t, topics[i].messageType) {
      forall j: nat | j > i ensures !IsEntryFor(topics, j, t) {
        if j < |topics| {
          SensorTypes(topics[j].messageType);
        }
      }
    }
    if IsLastEntryFor(topics, i, t) {
      forall j | i < j < |topics| && topics[j].topic == t ensures !IsSensorType(topics[j].messageType) {
        assert !IsEntryFor(topics, j, t);
      }
    }
    if forall j: nat :: !IsEntryFor(topics, j, t) {
      forall j | 0 <= j < |topics| && topics[j].topic == t ensures !IsSensorType(topics[j].messageType) {
        assert !IsEntryFor(topics, j, t);
      }
    }
  }

  lemma OneDecides(topics: seq<TopicSubscription>, t: string, i: nat, j: nat, a: string, b: string)
    requires Decides(topics, i, t, a) && Decides(topics, j, t, b)
    ensures i == j && a == b
  {
  }

  /** With all subscribes accepted, every topic of type telemetry or sensor is subscribed, and no other. */
  lemma SubscribeAdds(before: map<string, string>, topics: seq<TopicSubscription>)
    ensures AddsSensorTopics(before, topics, Subscribe(before, topics, {}))
  {
    var subs := Subscribe(before, topics, {});
    forall t ensures t in subs <==> t in before || exists i: nat :: IsEntryFor(topics, i, t) {
      SubscribeAll(before, topics, t);
      EntriesDecide(topics, t, 0);
    }
    forall t, i: nat | IsLastEntryFor(topics, i, t) ensures t in subs && subs[t] == topics[i].messageType {
      SubscribeAll(before, topics, t);
      EntriesDecide(topics, t, i);
      var j: nat :| Decides(topics, j, t, subs[t]);
      OneDecides(topics, t, i, j, topics[i].messageType, subs[t]);
    }
  }

  /** Fully subscribed means: to the topics of type telemetry or sensor and to no other, each with the type of its last such entry. */
  lemma FullySubscribedIff(l: Link)
    ensures FullySubscribed(l) <==> AddsSensorTopics(map[], l.bridge.topics, l.subs)
  {
    var topics := l.bridge.topics;
    if FullySubscribed(l) {
      forall t ensures t in l.subs <==> exists i: nat :: IsEntryFor(topics, i, t) {
        if t in l.subs {
          var i: nat :| Decides(topics, i, t, l.subs[t]);
          assert IsEntryFor(topics, i, t);
        }
      }
      forall t, i: nat | IsLastEntryFor(topics, i, t) ensures t in l.subs && l.subs[t] == topics[i].messageType {
        EntriesDecide(topics, t, i);
        var j: nat :| Decides(topics, j, t, l.subs[t]);
        OneDecides(topics, t, i, j, topics[i].messageType, l.subs[t]);
      }
    }
    if AddsSensorTopics(map[], topics, l.subs) {
      forall t | t in l.subs ensures exists i: nat :: Decides(topics, i, t, l.subs[t]) {
        var k: nat :| IsEntryFor(topics, k, t);
        var i := LastEntry(topics, t, k);
        EntriesDecide(topics, t, i);
      }
      forall i: nat | i < |topics| && IsSensorType(topics[i].messageType) ensures topics[i].topic in l.subs {
        assert IsEntryFor(topics, i, topics[i].topic);
      }
    }
  }

  lemma {:induction false} LastEntry(topics: seq<TopicSubscription>, t: string, k: nat) returns (i: nat)
    requires IsEntryFor(topics, k, t)
    ensures IsLastEntryFor(topics, i, t)
    decreases |topics| - k
  {
    if j: nat :| j > k && IsEntryFor(topics, j, t) {
      i := LastEntry(topics, t, j);
    } else {
      i := k;
    }
  }

  /** No callback of the run comes before its client is assigned, and the broker refuses nothing. */
  ghost predicate InOrder(s: BridgeState, steps: seq<Step>)
    decreases |steps|
  {
    if steps == [] then true
    else if !Enabled(s, steps[0]) then InOrder(s, steps[1..])
    else
      && (steps[0].OnConnect? ==> s.links[steps[0].id].hasClient && steps[0].refused == {})
      && InOrder(Next(s, steps[0]), steps[1..])
  }

  /** Whoever is up and has no callback due has its subscriptions. */
  ghost predicate AllSubscribed(s: BridgeState) {
    forall id: nat :: id < |s.links| && s.links[id].status.Up? && s.links[id].due == 0 ==> FullySubscribed(s.links[id])
  }

  lemma NextSubscribed(s: BridgeState, step: Step)
    requires Inv(s) && AllSubscribed(s) && Enabled(s, step)
    requires step.OnConnect? ==> s.links[step.id].hasClient && step.refused == {}
    ensures AllSubscribed(Next(s, step))
  {
    var s' := Next(s, step);
    forall id: nat | id < |s'.links| && s'.links[id].status.Up? && s'.links[id].due == 0 ensures FullySubscribed(s'.links[id]) {
      assert LinkFits(s, id);
      if step.OnConnect? && step.id == id {
        SubscriptionRestored(s.links[id]);
      }
    }
  }

  lemma {:induction false} RunSubscribed(s: BridgeState, steps: seq<Step>)
    requires Inv(s) && AllSubscribed(s) && InOrder(s, steps)
    ensures AllSubscribed(RunSteps(s, steps))
    decreases |steps|
  {
    if steps != [] {
      if Enabled(s, steps[0]) {
        NextKeeps(s, steps[0]);
        NextSubscribed(s, steps[0]);
        RunSubscribed(Next(s, steps[0]), steps[1..]);
      } else {
        RunSubscribed(s, steps[1..]);
      }
    }
  }

  /** Through every loss and reconnect: if no callback overtakes the assignment, subscriptions are always restored. */
  lemma SubscriptionsAlwaysRestored(steps: seq<Step>)
    requires InOrder(INITIAL, steps)
    ensures AllSubscribed(RunSteps(INITIAL, steps))
  {
    RunSubscribed(INITIAL, steps);
  }

  // ------------------------------------------------------------------ Connect as steps

  /** What one Connect call does, as steps; early tells whether the first callback runs before the assignment, and what is refused then. */
  function ConnectSteps(b: Bridge, id: nat, credentialsFail: bool, dialFails: bool, early: Option<set<nat>>): seq<Step> {
    if credentialsFail then [Begin(b, true)]
    else if dialFails then [Begin(b, false), Fail]
    else if early.Some? then [Begin(b, false), Establish, OnConnect(id, early.value), Register]
    else [Begin(b, false), Establish, Register]
  }

  /** The connection a successful Connect leaves behind. */
  function ConnectedLink(b: Bridge, early: Option<set<nat>>): Link {
    var up := NewLink(b).(status := Up, due := 1);
    (if early.Some? then Greeted(up, early.value) else up).(hasClient := true, connected := true)
  }

  /** What the part after the credentials makes of the state. */
  function DialState(s: BridgeState, b: Bridge, dialFails: bool, early: Option<set<nat>>): BridgeState {
    if dialFails then s.(links := s.links + [NewLink(b).(status := Closed)], inFlight := None)
    else s.(links := s.links + [ConnectedLink(b, early)], bridges := s.bridges[b.key := |s.links|], inFlight := None)
  }

  /** The end of those steps. */
  function ConnectState(s: BridgeState, b: Bridge, credentialsFail: bool, dialFails: bool, early: Option<set<nat>>): BridgeState {
    var s1 := CloseExisting(s, b.key);
    if credentialsFail then s1 else DialState(s1, b, dialFails, early)
  }

  lemma FailingConnectIsRun(s: BridgeState, b: Bridge)
    requires s.inFlight.None?
    ensures RunSteps(s, [Begin(b, true)]) == ConnectState(s, b, true, false, None)
    ensures RunSteps(s, [Begin(b, false), Fail]) == ConnectState(s, b, false, true, None)
  {
    assert RunSteps(s, [Begin(b, true)]) == RunSteps(CloseExisting(s, b.key), []);
    RunTwo(s, Begin(b, false), Fail);
  }

  /** The state while a new client is in the hands of Connect. */
  function WithNew(s: BridgeState, l: Link): BridgeState {
    var s1 := CloseExisting(s, l.bridge.key);
    s1.(links := s1.links + [l], inFlight := Some(|s1.links|))
  }

  lemma EstablishedIsRun(s: BridgeState, b: Bridge)
    requires s.inFlight.None?
    ensures RunSteps(s, [Begin(b, false), Establish]) == WithNew(s, NewLink(b).(status := Up, due := 1))
  {
    RunTwo(s, Begin(b, false), Establish);
  }

  lemma RegisterNew(s: BridgeState, l: Link)
    requires l.status.Up?
    ensures var s1 := CloseExisting(s, l.bridge.key);
            RunSteps(WithNew(s, l), [Register])
            == s1.(links := s1.links + [l.(hasClient := true, connected := true)],
                   bridges := s1.bridges[l.bridge.key := |s1.links|], inFlight := None)
  {
    var s' := WithNew(s, l);
    assert RunSteps(s', [Register]) == RunSteps(Next(s', Register), []);
  }

  lemma EarlyCallback(s: BridgeState, l: Link, refused: set<nat>)
    requires l.due > 0
    ensures RunSteps(WithNew(s, l), [OnConnect(|s.links|, refused)]) == WithNew(s, Greeted(l, refused))
  {
    var s', step := WithNew(s, l), OnConnect(|s.links|, refused);
    assert RunSteps(s', [step]) == RunSteps(Next(s', step), []);
  }

  lemma ConnectIsRun(s: BridgeState, b: Bridge, credentialsFail: bool, dialFails: bool, early: Option<set<nat>>)
    requires s.inFlight.None?
    ensures RunSteps(s, ConnectSteps(b, |s.links|, credentialsFail, dialFails, early))
         == ConnectState(s, b, credentialsFail, dialFails, early)
  {
    if credentialsFail || dialFails {
      FailingConnectIsRun(s, b);
    } else {
      var up, first := NewLink(b).(status := Up, due := 1), [Begin(b, false), Establish];
      EstablishedIsRun(s, b);
      if early.Some? {
        var callback := OnConnect(|s.links|, early.value);
        EarlyCallback(s, up, early.value);
        RegisterNew(s, Greeted(up, early.value));
        RunConcat(WithNew(s, up), [callback], [Register]);
        RunConcat(s, first, [callback] + [Register]);
        assert first + ([callback] + [Register]) == ConnectSteps(b, |s.links|, false, false, early);
      } else {
        RegisterNew(s, up);
        RunConcat(s, first, [Register]);
        assert first + [Register] == ConnectSteps(b, |s.links|, false, false, early);
      }
    }
  }

  lemma RunTwo(s: BridgeState, a: Step, b: Step)
    requires Enabled(s, a) && Enabled(Next(s, a), b)
    ensures RunSteps(s, [a, b]) == Next(Next(s, a), b)
  {
    assert [a, b][1..] == [b];
    assert RunSteps(Next(s, a), [b]) == RunSteps(Next(Next(s, a), b), []);
  }

  lemma {:induction false} RunConcat(s: BridgeState, a: seq<Step>, b: seq<Step>)
    ensures RunSteps(s, a + b) == RunSteps(RunSteps(s, a), b)
    decreases |a|
  {
    if a == [] {
      assert a + b == b;
    } else {
      assert (a + b)[1..] == a[1..] + b;
      RunConcat(if Enabled(s, a[0]) then Next(s, a[0]) else s, a[1..], b);
    }
  }

  // ------------------------------------------------------------- callback and assignment

  ghost predicate HasSensorTopic(b: Bridge) {
    exists i :: 0 <= i < |b.topics| && IsSensorType(b.topics[i].messageType)
  }

  lemma EmptyIsFullIff(l: Link)
    requires l.subs == map[]
    ensures FullySubscribed(l) <==> !HasSensorTopic(l.bridge)
  {
    if i :| 0 <= i < |l.bridge.topics| && IsSensorType(l.bridge.topics[i].messageType) {
      assert l.bridge.topics[i].topic !in l.subs;
    }
  }

  /** A successful Connect and its one callback, which either comes early or runs after it. */
  function ConnectAndCallback(b: Bridge, id: nat, early: Option<set<nat>>): seq<Step> {
    ConnectSteps(b, id, false, false, early) + if early.Some? then [] else [OnConnect(id, {})]
  }

  /** The link that these steps leave. */
  function LinkAfter(b: Bridge, early: Option<set<nat>>): Link {
    var l := ConnectedLink(b, early);
    if early.Some? then l else Greeted(l, {})
  }

  lemma LinkAfterIsFullIff(b: Bridge, early: Option<set<nat>>)
    ensures FullySubscribed(LinkAfter(b, early)) <==> early.None? || !HasSensorTopic(b)
  {
    if early.Some? {
      EmptyIsFullIff(LinkAfter(b, early));
    } else {
      SubscriptionRestored(ConnectedLink(b, early));
    }
  }

  lemma LaterCallback(s: BridgeState, b: Bridge)
    requires s.inFlight.None?
    ensures var s' := ConnectState(s, b, false, false, None); var id := |s.links|;
            RunSteps(s', [OnConnect(id, {})]) == SetLink(s', id, LinkAfter(b, None))
  {
    var s', step := ConnectState(s, b, false, false, None), OnConnect(|s.links|, {});
    assert RunSteps(s', [step]) == RunSteps(Next(s', step), []);
  }

  /**
   From every state in which no Connect is running, a Connect that succeeds and its
   one callback leave a bridge that counts as connected and has no callback due.  It
   is fully subscribed if and only if the callback did not run before the client was
   assigned, or there is nothing to subscribe to.
   */
  lemma EarlyCallbackLosesSubscriptions(s: BridgeState, b: Bridge, early: Option<set<nat>>)
    requires s.inFlight.None?
    ensures var id := |s.links|; var end := RunSteps(s, ConnectAndCallback(b, id, early));
            && IsConnected(end, b.key) && end.bridges[b.key] == id
            && end.links[id].status.Up? && end.links[id].due == 0
            && (FullySubscribed(end.links[id]) <==> early.None? || !HasSensorTopic(b))
  {
    var id := |s.links|;
    var steps := ConnectSteps(b, id, false, false, early);
    ConnectIsRun(s, b, false, false, early);
    LinkAfterIsFullIff(b, early);
    if early.Some? {
      assert ConnectAndCallback(b, id, early) == steps;
    } else {
      RunConcat(s, steps, [OnConnect(id, {})]);
      LaterCallback(s, b);
    }
  }
}
