/** The bridge manager as the objects it is made of, tied to the state machine of Bridges. */
module BridgeManager {
  import opened Common
  import opened Manager
  import opened Telemetry
  import opened Ingest
  import opened Bridges
  import D = Dispatcher

  /** A client of the MQTT library. */
  class MqttClient {
    var status: Status
    var subs: map<string, string>
    ghost var due: nat      // onConnect callbacks started and not yet run
    ghost var lostDue: nat  // onConnectionLost callbacks likewise

    constructor ()
      ensures status == Dialing && subs == map[] && due == 0 && lostDue == 0
    {
      status, subs, due, lostDue := Dialing, map[], 0, 0;
    }

    method Connect(fails: bool)
      modifies this
      ensures subs == old(subs) && lostDue == old(lostDue)
      ensures if fails then status == Closed && due == old(due) else status == Up && due == old(due) + 1
    {
      if fails {
        status := Closed;
      } else {
        status, due := Up, due + 1;
      }
    }

    method Disconnect()
      modifies this
      ensures status == Closed && subs == map[] && due == old(due) && lostDue == old(lostDue)
    {
      status, subs := Closed, map[];
    }

    /** Fails without an open connection, or when the broker refuses. */
    method Subscribe(topic: string, messageType: string, refused: bool)
      modifies `subs
      ensures subs == if status.Up? && !refused then old(subs)[topic := messageType] else old(subs)
    {
      if status.Up? && !refused {
        subs := subs[topic := messageType];
      }
    }
  }

  class BridgeConnection {
    ghost const id: nat
    const bridge: Bridge
    ghost const client: MqttClient  // the client whose callbacks name this connection
    var mqttClient: MqttClient?
    var connected: bool

    constructor (ghost id: nat, bridge: Bridge, ghost client: MqttClient)
      ensures this.id == id && this.bridge == bridge && this.client == client
      ensures mqttClient == null && !connected
    {
      this.id, this.bridge, this.client, mqttClient, connected := id, bridge, client, null, false;
    }

    ghost function View(): Link
      reads this, client
    {
      Link(bridge, client.status, mqttClient != null, connected, client.subs, client.due, client.lostDue)
    }

    ghost predicate Valid()
      reads this
    {
      mqttClient == null || mqttClient == client
    }

    /** Subscribe to one topic, if there is a client that counts as connected. */
    method SubscribeToTopic(t: TopicSubscription, refused: bool)
      requires Valid()
      modifies client`subs
      ensures client.subs == if mqttClient != null && client.status.Up? && !refused
                             then old(client.subs)[t.topic := t.messageType] else old(client.subs)
    {
      if mqttClient == null || !IsLive(mqttClient.status) {
        return;
      }
      mqttClient.Subscribe(t.topic, t.messageType, refused);
    }

    /** The loop over the configured topics. */
    method SubscribeToTopics(refused: set<nat>)
      requires Valid()
      modifies client`subs
      ensures client.subs == if mqttClient != null && client.status.Up?
                             then Subscribe(old(client.subs), bridge.topics, refused) else old(client.subs)
      ensures mqttClient != null && client.status.Up? && refused == {} ==>
                AddsSensorTopics(old(client.subs), bridge.topics, client.subs)
    {
      var topics := bridge.topics;
      for i := 0 to |topics|
        invariant client.subs == if mqttClient != null && client.status.Up?
                                 then Subscribe(old(client.subs), topics[..i], refused) else old(client.subs)
      {
        assert topics[..i + 1][..i] == topics[..i];
        if IsSensorType(topics[i].messageType) {
          SubscribeToTopic(topics[i], i in refused);
        }
      }
      assert topics[..|topics|] == topics;
      SubscribeAdds(old(client.subs), topics);
    }

    method OnConnect(refused: set<nat>)
      requires Valid() && client.due > 0
      modifies this`connected, client`subs, client`due
      ensures Valid() && View() == Greeted(old(View()), refused)
      ensures mqttClient != null && client.status.Up? && refused == {} ==>
                AddsSensorTopics(old(client.subs), bridge.topics, client.subs)
    {
      connected := true;
      SubscribeToTopics(refused);
      CallbackRan();
    }

    ghost method CallbackRan()
      requires client.due > 0
      modifies client`due
      ensures client.due == old(client.due) - 1
    {
      client.due := client.due - 1;
    }

    method OnConnectionLost()
      requires client.lostDue > 0
      modifies this`connected, client`lostDue
      ensures View() == old(View()).(connected := false, lostDue := old(client.lostDue) - 1)
    {
      connected := false;
      client.lostDue := client.lostDue - 1;
    }

    /** The end of Connect: from now on the client is known. */
    method Assign(client: MqttClient)
      requires client == this.client
      modifies this
      ensures Valid() && View() == old(View()).(hasClient := true, connected := true)
    {
      mqttClient := client;
      connected := true;
    }

    /** Disconnect the client if it counts as connected. */
    method Close()
      requires Valid()
      modifies client
      ensures View() == CloseLink(old(View()))
    {
      if mqttClient != null && IsLive(mqttClient.status) {
        mqttClient.Disconnect();
      }
    }
  }

  ghost function LinksOf(conns: seq<BridgeConnection>): (r: seq<Link>)
    reads conns, set c | c in conns :: c.client
    ensures |r| == |conns| && forall i :: 0 <= i < |r| ==> r[i] == conns[i].View()
  {
    seq(|conns|, i requires 0 <= i < |conns| reads conns, set c | c in conns :: c.client => conns[i].View())
  }

  ghost function IdsOf(bridges: map<string, BridgeConnection>): map<string, nat> {
    map key | key in bridges :: bridges[key].id
  }

  lemma IdsOfUpdate(bridges: map<string, BridgeConnection>, key: string, conn: BridgeConnection)
    ensures IdsOf(bridges[key := conn]) == IdsOf(bridges)[key := conn.id]
    ensures IdsOf(bridges - {key}) == IdsOf(bridges) - {key}
  {
  }

  lemma ReplaceLast(links: seq<Link>, l: Link, l': Link)
    ensures (links + [l])[|links| := l'] == links + [l']
  {
  }

  class BridgeManager {
    var bridges: map<string, BridgeConnection>
    ghost var conns: seq<BridgeConnection>  // every connection ever made, in order
    ghost var inFlight: Option<nat>         // the one that a running Connect is making
    const tasmotaDispatcher: D.Dispatcher

    ghost predicate Valid()
      reads this, conns
    {
      && (forall i :: 0 <= i < |conns| ==> conns[i].id == i && conns[i].Valid())
      && (forall i, j :: 0 <= i < j < |conns| ==> conns[i].client != conns[j].client)
      && (forall key :: key in bridges ==> bridges[key] in conns)
    }

    ghost function Links(): (r: seq<Link>)
      reads this`conns, conns, set c | c in conns :: c.client
      ensures |r| == |conns| && forall i :: 0 <= i < |r| ==> r[i] == conns[i].View()
    {
      LinksOf(conns)
    }

    ghost function Ids(): map<string, nat>
      reads this`bridges
    {
      IdsOf(bridges)
    }

    ghost function State(): BridgeState
      reads this, conns, set c | c in conns :: c.client
    {
      BridgeState(Links(), Ids(), inFlight)
    }

    constructor (dbManager: Manager)
      ensures Valid() && State() == INITIAL
      ensures fresh(tasmotaDispatcher) && tasmotaDispatcher.dbManager == dbManager && CoversSensorTypes()
      ensures forall t :: t in tasmotaDispatcher.handlers <==> IsSensorType(t)
    {
      bridges, conns, inFlight := map[], [], None;
      tasmotaDispatcher := new D.Dispatcher(dbManager);
      new;
      forall t ensures t in tasmotaDispatcher.handlers <==> IsSensorType(t) {
        SensorTypes(t);
      }
    }

    /** Disconnect the client of an existing connection. */
    method CloseExistingConnection(key: string)
      requires Valid()
      modifies set c | c in conns :: c.client
      ensures Valid() && conns == old(conns) && State() == CloseExisting(old(State()), key)
    {
      if key in bridges {
        var existing := bridges[key];
        assert conns[existing.id] == existing;
        existing.Close();
      }
    }

    method Forget(key: string)
      requires Valid()
      modifies this`bridges
      ensures Valid() && bridges == old(bridges) - {key} && Links() == old(Links()) && Ids() == old(Ids()) - {key}
    {
      bridges := bridges - {key};
    }

    method Disconnect(key: string)
      requires Valid() && inFlight.None?
      modifies this`bridges, set c | c in conns :: c.client
      ensures Valid() && conns == old(conns) && State() == DisconnectState(old(State()), key)
    {
      if key in bridges {
        CloseExistingConnection(key);
        Forget(key);
      }
    }

    /** A new connection with a new client, in the hands of the running Connect. */
    method NewConnection(b: Bridge) returns (conn: BridgeConnection, client: MqttClient)
      requires Valid()
      modifies this`conns, this`inFlight
      ensures Valid() && conns == old(conns) + [conn] && inFlight == Some(conn.id)
      ensures fresh(conn) && fresh(client) && conn.id == |old(conns)| && conn.client == client && conn.mqttClient == null
      ensures client.status.Dialing?
      ensures Ids() == old(Ids()) && Links() == old(Links()) + [NewLink(b)]
    {
      client := new MqttClient();
      conn := new BridgeConnection(|conns|, b, client);
      conns, inFlight := conns + [conn], Some(|conns|);
    }

    /** Dialling, with the callback that may overtake the assignment. */
    method Dial(conn: BridgeConnection, client: MqttClient, fails: bool, early: Option<set<nat>>)
      requires Valid() && conn in conns && conn.client == client && conn.mqttClient == null
      requires client.status.Dialing? && conn.View() == NewLink(conn.bridge)
      modifies conn`connected, client
      ensures Valid()
      ensures Ids() == old(Ids())
      ensures conn.mqttClient == null && Links() == old(Links())[conn.id := conn.View()]
      ensures fails ==> conn.View() == NewLink(conn.bridge).(status := Closed)
      ensures !fails ==> conn.View().(hasClient := true, connected := true) == ConnectedLink(conn.bridge, early)
    {
      assert conns[conn.id] == conn;
      client.Connect(fails);
      if !fails && early.Some? {
        conn.OnConnect(early.value);
      }
    }

    /** m.bridges[key] = conn */
    method Enter(conn: BridgeConnection)
      requires Valid() && conn in conns
      modifies this`bridges, this`inFlight
      ensures Valid() && inFlight.None? && bridges == old(bridges)[conn.bridge.key := conn]
      ensures Links() == old(Links()) && Ids() == old(Ids())[conn.bridge.key := conn.id]
    {
      IdsOfUpdate(bridges, conn.bridge.key, conn);
      bridges, inFlight := bridges[conn.bridge.key := conn], None;
    }

    method Register(conn: BridgeConnection, client: MqttClient)
      requires Valid() && conn in conns && conn.client == client
      modifies conn, this`bridges, this`inFlight
      ensures Valid() && inFlight.None?
      ensures Ids() == old(Ids())[conn.bridge.key := conn.id]
      ensures conn.View() == old(conn.View()).(hasClient := true, connected := true)
      ensures Links() == old(Links())[conn.id := conn.View()]
    {
      assert conns[conn.id] == conn;
      conn.Assign(client);
      Enter(conn);
    }

    ghost method Unlock()
      requires Valid()
      modifies this`inFlight
      ensures Valid() && inFlight.None? && Ids() == old(Ids()) && Links() == old(Links())
    {
      inFlight := None;
    }

    /** Make a client, dial, and register the connection. */
    method ConnectNew(b: Bridge, dialFails: bool, early: Option<set<nat>>) returns (ok: bool)
      requires Valid() && inFlight.None?
      modifies this
      ensures Valid() && inFlight.None?
      ensures Links() == DialState(old(State()), b, dialFails, early).links
      ensures Ids() == DialState(old(State()), b, dialFails, early).bridges
      ensures ok <==> !dialFails
    {
      ghost var links := Links();
      var conn, client := NewConnection(b);
      Dial(conn, client, dialFails, early);
      if dialFails {
        Unlock();
        ReplaceLast(links, NewLink(b), conn.View());
        return false;
      }
      ghost var dialled := conn.View();
      Register(conn, client);
      ReplaceLast(links, NewLink(b), dialled);
      ReplaceLast(links, dialled, conn.View());
      ok := true;
    }

    /** Connect with every failure exit, and with the first callback before or after the assignment. */
    method Connect(b: Bridge, credentialsFail: bool, dialFails: bool, early: Option<set<nat>>) returns (ok: bool)
      requires Valid() && inFlight.None?
      modifies this, set c | c in conns :: c.client
      ensures Valid() && inFlight.None?
      ensures State() == RunSteps(old(State()), ConnectSteps(b, |old(conns)|, credentialsFail, dialFails, early))
      ensures ok <==> !credentialsFail && !dialFails
    {
      ConnectIsRun(State(), b, credentialsFail, dialFails, early);
      CloseExistingConnection(b.key);
      if credentialsFail {
        return false;
      }
      ok := ConnectNew(b, dialFails, early);
    }

    method IsConnected(key: string) returns (r: bool)
      requires Valid()
      ensures r <==> Bridges.IsConnected(State(), key)
    {
      if key in bridges {
        var conn := bridges[key];
        assert conns[conn.id] == conn;
        return conn.connected && conn.mqttClient != null && IsLive(conn.mqttClient.status);
      }
      r := false;
    }

    /** Every type that is ever subscribed to has a handler. */
    ghost predicate CoversSensorTypes()
      reads tasmotaDispatcher`handlers
    {
      {"telemetry", "sensor"} <= tasmotaDispatcher.handlers.Keys
    }

    /** Registering a handler, whatever its type, keeps it so. */
    method RegisterHandler(messageType: string, handler: D.MessageHandler)
      requires CoversSensorTypes()
      modifies tasmotaDispatcher`handlers
      ensures CoversSensorTypes() && tasmotaDispatcher.handlers == old(tasmotaDispatcher.handlers)[messageType := handler]
    {
      tasmotaDispatcher.RegisterHandler(messageType, handler);
    }

    /**
     A message on a subscribed topic, with the type that was subscribed.  Only Tasmota
     bridges dispatch; for them every such message reaches a handler, and with the
     telemetry handler it has the effect of HandleMessage there.
     */
    method HandleMessage(conn: BridgeConnection, t: TopicSubscription, msg: Option<map<string, ZigbeeDevice>>,
                         calls: string -> Call, customOk: bool)
      returns (r: D.Dispatched, ghost visits: seq<Visit>)
      requires Valid() && Inv(State()) && CoversSensorTypes() && conn in conns
      requires t.topic in conn.client.subs && conn.client.subs[t.topic] == t.messageType
      requires tasmotaDispatcher.ManagerFor(t.messageType) != null ==> Ready(tasmotaDispatcher.ManagerFor(t.messageType))
      modifies if conn.bridge.deviceType == "tasmota" then tasmotaDispatcher.DatabasesFor(t.messageType) else {}
      ensures r.Answered? <==> conn.bridge.deviceType == "tasmota"
      ensures r.Answered? && tasmotaDispatcher.ManagerFor(t.messageType) != null ==>
                var m, entries := tasmotaDispatcher.ManagerFor(t.messageType), if msg.None? then map[] else msg.value;
                && D.Handled(m, entries, calls, visits)
                && forall p :: p in m.pools ==>
                     HasReceived(p.database.Contents(), old(p.database.Contents()), calls, entries, visits, p.database)
    {
      visits := [];
      assert conns[conn.id] == conn;
      SubscribedIsSensorType(State(), conn.id, t.topic);
      if conn.bridge.deviceType == "tasmota" {
        r, visits := tasmotaDispatcher.Dispatch(t.messageType, msg, calls, customOk);
      } else {
        r := D.Unhandled;
      }
    }
  }
}
