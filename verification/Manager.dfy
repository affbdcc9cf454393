/** The database manager as the objects it is made of, tied to the abstract state of Connections. */
module Manager {
  import opened Common
  import opened Tables
  import opened Handlers
  import opened Connections

  /** How a store through the manager ends. */
  datatype StoreOutcome = Stored | HandlerFailed | NoDatabase | NotInitialized | Unsupported

  /** One registered connection; the handler fields are filled while Connect runs. */
  class Connection {
    const database: Spec
    const db: Pool
    var moistureHandler: MoistureHandler?
    var waterLevelHandler: WaterLevelHandler?
    var valveHandler: ValveHandler?
    var roomHandler: RoomHandler?

    constructor (database: Spec, db: Pool)
      ensures this.database == database && this.db == db
      ensures moistureHandler == null && waterLevelHandler == null && valveHandler == null && roomHandler == null
    {
      this.database, this.db := database, db;
      moistureHandler, waterLevelHandler, valveHandler, roomHandler := null, null, null, null;
    }

    /** The pool that the handler of a kind writes to. */
    ghost function HandlerDb(k: Kind): (p: Pool?)
      reads this
    {
      match k
      case Moisture => if moistureHandler == null then null else moistureHandler.db
      case WaterLevel => if waterLevelHandler == null then null else waterLevelHandler.db
      case Valve => if valveHandler == null then null else valveHandler.db
      case Room => if roomHandler == null then null else roomHandler.db
    }

    ghost function HandlerId(k: Kind): Option<nat>
      reads this
    {
      if HandlerDb(k) == null then None else Some((HandlerDb(k) as Pool).id)
    }

    /** The switch over the handlers. */
    method StoreWith(k: Kind, deviceId: string, payload: Payload, now: int, f: Faults) returns (r: StoreOutcome)
      modifies if HandlerDb(k) == null then {} else {(HandlerDb(k) as Pool).database}
      ensures HandlerDb(k) == null ==> r == NotInitialized
      ensures HandlerDb(k) != null ==>
                var p := HandlerDb(k) as Pool;
                && r == (if Store(old(p.database.Contents()), k, deviceId, payload, now, Effective(f, p.open)).1
                         then Stored else HandlerFailed)
                && p.database.Contents() == Store(old(p.database.Contents()), k, deviceId, payload, now, Effective(f, p.open)).0
    {
      var ok: bool;
      match k {
      case Moisture =>
        if moistureHandler == null {
          return NotInitialized;
        }
        ok := moistureHandler.StoreMeasurement(deviceId, payload, now, f);
      case WaterLevel =>
        if waterLevelHandler == null {
          return NotInitialized;
        }
        ok := waterLevelHandler.StoreMeasurement(deviceId, payload, now, f);
      case Valve =>
        if valveHandler == null {
          return NotInitialized;
        }
        ok := valveHandler.StoreMeasurement(deviceId, payload, now, f);
      case Room =>
        if roomHandler == null {
          return NotInitialized;
        }
        ok := roomHandler.StoreMeasurement(deviceId, payload, now, f);
      }
      r := if ok then Stored else HandlerFailed;
    }

    ghost function View(): ConnectionState
      reads this
    {
      ConnectionState(database, db.id, HandlerId(Moisture), HandlerId(WaterLevel), HandlerId(Valve), HandlerId(Room))
    }
  }

  ghost function ViewsOf(connections: map<string, Connection>): map<string, ConnectionState>
    reads connections.Values
  {
    map key | key in connections :: connections[key].View()
  }

  lemma ViewsOfUpdate(connections: map<string, Connection>, key: string, conn: Connection)
    ensures ViewsOf(connections[key := conn]) == ViewsOf(connections)[key := conn.View()]
  {
  }

  class Manager {
    var connections: map<string, Connection>
    ghost var pools: seq<Pool>  // every pool that this process made, in order

    ghost predicate Valid()
      reads this, connections.Values
    {
      && (forall i :: 0 <= i < |pools| ==> pools[i].id == i)
      && (forall key :: key in connections ==>
            connections[key].db in pools
            && forall k: Kind :: connections[key].HandlerDb(k) != null ==> connections[key].HandlerDb(k) in pools)
    }

    ghost function OpenFlags(): (r: seq<bool>)
      reads this`pools, pools
      ensures |r| == |pools| && forall i :: 0 <= i < |r| ==> r[i] == pools[i].open
    {
      var all := pools;
      seq(|all|, i requires 0 <= i < |all| reads all => all[i].open)
    }

    ghost function Views(): map<string, ConnectionState>
      reads this`connections, connections.Values
    {
      ViewsOf(connections)
    }

    ghost function State(): ManagerState
      reads this, connections.Values, pools
    {
      ManagerState(Views(), OpenFlags())
    }

    constructor ()
      ensures Valid() && State() == INITIAL
    {
      connections, pools := map[], [];
    }

    /** Close the pool of an existing connection and forget it. */
    method Disconnect(namespace: ResourceName, name: ResourceName)
      requires Valid()
      modifies this`connections, pools`open
      ensures Valid() && pools == old(pools)
      ensures State() == DisconnectState(old(State()), Key(NamespacedName(namespace, name)))
    {
      Drop(Key(NamespacedName(namespace, name)));
    }

    method Drop(key: string)
      requires Valid()
      modifies this`connections, pools`open
      ensures Valid() && pools == old(pools)
      ensures State() == DisconnectState(old(State()), key)
    {
      if key in connections {
        var pool := connections[key].db;
        ClosePool(pool);
        assert Views() == old(Views());
        Forget(key);
      }
    }

    method Forget(key: string)
      requires Valid()
      modifies this`connections
      ensures Valid() && pools == old(pools)
      ensures Views() == old(Views()) - {key} && OpenFlags() == old(OpenFlags())
    {
      connections := connections - {key};
    }

    method ClosePool(pool: Pool)
      requires Valid() && pool in pools
      modifies pool`open
      ensures pool.id < |pools| && OpenFlags() == old(OpenFlags())[pool.id := false]
    {
      assert pools[pool.id] == pool;
      pool.Close();
    }

    /** The handler set-up loop: one handler per listed type, unknown types skipped, repeats replacing. */
    method SetUpHandlers(conn: Connection)
      requires conn.moistureHandler == null && conn.waterLevelHandler == null
      requires conn.valveHandler == null && conn.roomHandler == null
      modifies conn
      ensures conn.View() == NewConnection(conn.database, conn.db.id)
      ensures forall k: Kind :: conn.HandlerDb(k) == null || conn.HandlerDb(k) == conn.db
    {
      var types := conn.database.sensorTypes;
      for i := 0 to |types|
        invariant forall k: Kind ::
            conn.HandlerDb(k) == if KindName(k) in types[..i] then conn.db else null
      {
        assert types[..i + 1] == types[..i] + [types[i]];
        if types[i] == "moisture" {
          conn.moistureHandler := new MoistureHandler(conn.db);
        } else if types[i] == "water_level" {
          conn.waterLevelHandler := new WaterLevelHandler(conn.db);
        } else if types[i] == "valve" {
          conn.valveHandler := new ValveHandler(conn.db);
        } else if types[i] == "room" {
          conn.roomHandler := new RoomHandler(conn.db);
        }
      }
      assert types[..|types|] == types;
    }

    /** Connect with every failure exit; server is the storage that the resource points to. */
    method Connect(n: NamespacedName, database: Spec, server: Database, outcome: Outcome) returns (ok: bool)
      requires Valid()
      modifies this, pools`open
      ensures Valid()
      ensures State() == ConnectState(old(State()), Key(n), database, outcome)
      ensures ok <==> outcome.Succeeds?
      ensures ok ==> Key(n) in connections && connections[Key(n)].db.database == server && fresh(connections[Key(n)].db)
    {
      var key := Key(n);
      Drop(key);
      ok := Open(key, database, server, outcome);
    }

    method Open(key: string, database: Spec, server: Database, outcome: Outcome) returns (ok: bool)
      requires Valid()
      modifies this
      ensures Valid()
      ensures State() == OpenState(old(State()), key, database, outcome)
      ensures ok <==> outcome.Succeeds?
      ensures ok ==> key in connections && connections[key].db.database == server && fresh(connections[key].db)
    {
      if outcome.DsnFails? || outcome.ParseFails? || outcome == OpenFails(false) {
        return false;
      }
      ghost var views, flags := Views(), OpenFlags();
      var db := OpenPool(server);
      if outcome.OpenFails? || outcome.PoolFails? || outcome.MigrationsFail? {
        return false;
      }
      var conn := NewConnectionFor(database, db);
      assert Views() == views && OpenFlags() == flags + [true];
      RegisterConnection(key, conn);
      assert Views() == views[key := NewConnection(database, |flags|)];
      ok := true;
    }

    method OpenPool(server: Database) returns (db: Pool)
      requires Valid()
      modifies this`pools
      ensures Valid() && connections == old(connections) && pools == old(pools) + [db]
      ensures fresh(db) && db.database == server && db.id == |old(pools)|
      ensures Views() == old(Views()) && OpenFlags() == old(OpenFlags()) + [true]
    {
      db := new Pool(|pools|, server);
      pools := pools + [db];
    }

    method NewConnectionFor(database: Spec, db: Pool) returns (conn: Connection)
      ensures fresh(conn) && conn.db == db && conn.View() == NewConnection(database, db.id)
      ensures forall k: Kind :: conn.HandlerDb(k) == null || conn.HandlerDb(k) == db
    {
      conn := new Connection(database, db);
      SetUpHandlers(conn);
    }

    method RegisterConnection(key: string, conn: Connection)
      requires Valid() && conn.db in pools
      requires forall k: Kind :: conn.HandlerDb(k) == null || conn.HandlerDb(k) == conn.db
      modifies this`connections
      ensures Valid() && pools == old(pools) && connections == old(connections)[key := conn]
      ensures Views() == old(Views())[key := conn.View()] && OpenFlags() == old(OpenFlags())
    {
      ViewsOfUpdate(connections, key, conn);
      connections := connections[key := conn];
    }

    /** The loop over the map, in whatever order Go visits it, up to the first connection that lists the type. */
    method FindConnection(sensorType: string) returns (found: Connection?)
      ensures found == null <==> forall key :: key in connections ==> !Lists(connections[key].database, sensorType)
      ensures found != null ==> found in connections.Values && Lists(found.database, sensorType)
    {
      var remaining := connections.Keys;
      while remaining != {}
        invariant remaining <= connections.Keys
        invariant forall key :: key in connections && key !in remaining ==> !Lists(connections[key].database, sensorType)
      {
        var key :| key in remaining;
        if Lists(connections[key].database, sensorType) {
          return connections[key];
        }
        remaining := remaining - {key};
      }
      found := null;
    }

    method GetDBForSensorType(sensorType: string) returns (db: Pool?)
      ensures db == null <==> forall key :: key in connections ==> !Lists(connections[key].database, sensorType)
      ensures db != null ==>
        exists key :: key in connections && Lists(connections[key].database, sensorType) && db == connections[key].db
    {
      var conn := FindConnection(sensorType);
      if conn == null {
        return null;
      }
      db := conn.db;
    }

    /**
     Route a measurement to the handler of its type.  via is the connection the
     loop stopped at and target the database that its handler writes to, if any.
     */
    method StoreMeasurement(deviceId: string, sensorType: string, payload: Payload, now: int, f: Faults)
      returns (r: StoreOutcome, ghost via: Connection?, ghost target: Database?)
      requires Valid()
      modifies set p: Pool | p in pools :: p.database
      ensures via == null <==> forall key :: key in connections ==> !Lists(connections[key].database, sensorType)
      ensures via != null ==> via in connections.Values && Lists(via.database, sensorType)
      ensures via == null ==> r == NoDatabase && target == null
      ensures via != null && KindOf(sensorType).None? ==> r == Unsupported && target == null
      ensures via != null && KindOf(sensorType).Some? ==>
                var p := via.HandlerDb(KindOf(sensorType).value);
                if p == null then r == NotInitialized && target == null
                else target == p.database
                     && (target.Contents(), r == Stored)
                        == Store(old(target.Contents()), KindOf(sensorType).value, deviceId, payload, now, Effective(f, p.open))
                     && (r == Stored || r == HandlerFailed)
      ensures forall p :: p in pools && p.database != target ==> p.database.Contents() == old(p.database.Contents())
    {
      var conn := FindConnection(sensorType);
      via, target := conn, null;
      if conn == null {
        r := NoDatabase;
        return;
      }
      ghost var key :| key in connections && connections[key] == conn;
      if KindOf(sensorType).None? {
        r := Unsupported;
        return;
      }
      ghost var p := conn.HandlerDb(KindOf(sensorType).value);
      assert p != null ==> p in pools;
      target := if p == null then null else p.database;
      r := conn.StoreWith(KindOf(sensorType).value, deviceId, payload, now, f);
    }
  }
}
