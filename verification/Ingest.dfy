/** The telemetry handler at work on a manager: one message, its devices in whatever order the map yields them. */
module Ingest {
  import opened Common
  import opened Devices
  import opened Tables
  import opened Handlers
  import opened Connections
  import opened Manager
  import opened Telemetry

  // ------------------------------------------------------------------- one entry

  /** What one entry of a message meets: the devices that it lists, if that works, and which statements fail. */
  datatype Call = Call(devices: Option<seq<Device>>, faults: Faults)

  /** The device that has the short address. */
  function Known(call: Call, addr: string): Option<Device> {
    match call.devices
    case None => None
    case Some(devices) => FindByShortAddr(devices, addr)
  }

  /** The device that an entry stores for: it has the short address, and a sensor type with a handler. */
  function Target(call: Call, addr: string): Option<Device> {
    var d := Known(call, addr);
    if d.Some? && KindOf(d.value.sensorType).Some? then d else None
  }

  function TargetKind(call: Call, addr: string): Kind
    requires Target(call, addr).Some?
  {
    KindOf(Target(call, addr).value.sensorType).value
  }

  /** What the store of an entry leaves in the database that it reaches, and whether it worked. */
  ghost function EntryStore(t: Tables, call: Call, addr: string, zb: ZigbeeDevice, now: int): (Tables, bool)
    requires Target(call, addr).Some?
  {
    var d := Target(call, addr).value;
    Store(t, TargetKind(call, addr), d.name, PayloadOf(d, zb), now, call.faults)
  }

  /** What an entry contributes to the share of its device. */
  ghost function EntryContribution(call: Call, addr: string, zb: ZigbeeDevice, v: Option<DeviceView>): Option<DeviceView>
    requires Target(call, addr).Some?
  {
    Contribution(v, TargetKind(call, addr), PayloadOf(Target(call, addr).value, zb), call.faults)
  }

  // --------------------------------------------------------------- a whole message

  /** One turn of the loop: the entry, and the database that its store reached, if any. */
  datatype Visit = Visit(addr: string, to: Option<Database>)

  /** The visit reaches device d in database db. */
  ghost predicate Delivers(calls: string -> Call, v: Visit, d: string, db: Database) {
    var target := Target(calls(v.addr), v.addr);
    target.Some? && target.value.name == d && v.to == Some(db)
  }

  ghost function AfterVisit(calls: string -> Call, entries: map<string, ZigbeeDevice>, visit: Visit, d: string, db: Database,
                            v: Option<DeviceView>): Option<DeviceView>
    requires visit.addr in entries
  {
    if Delivers(calls, visit, d, db) then EntryContribution(calls(visit.addr), visit.addr, entries[visit.addr], v) else v
  }

  ghost predicate AreEntries(visits: seq<Visit>, entries: map<string, ZigbeeDevice>) {
    forall i :: 0 <= i < |visits| ==> visits[i].addr in entries
  }

  /** What a device has after some visits, when it had v before them. */
  ghost function Received(calls: string -> Call, entries: map<string, ZigbeeDevice>, visits: seq<Visit>, d: string, db: Database,
                          v: Option<DeviceView>): Option<DeviceView>
    requires AreEntries(visits, entries)
  {
    if visits == [] then v
    else
      var n := |visits| - 1;
      AfterVisit(calls, entries, visits[n], d, db, Received(calls, entries, visits[..n], d, db, v))
  }

  /** The visits are an order of the entries: each of them once. */
  ghost predicate IsOrder(visits: seq<Visit>, addrs: set<string>) {
    && (forall i, j :: 0 <= i < j < |visits| ==> visits[i].addr != visits[j].addr)
    && (forall i :: 0 <= i < |visits| ==> visits[i].addr in addrs)
    && (forall addr :: addr in addrs ==> exists i :: 0 <= i < |visits| && visits[i].addr == addr)
  }

  /** No two entries are for the same device. */
  ghost predicate DistinctTargetsIn(calls: string -> Call, addrs: set<string>) {
    forall a, b | a in addrs && b in addrs && a != b && Target(calls(a), a).Some? && Target(calls(b), b).Some? ::
      Target(calls(a), a).value.name != Target(calls(b), b).value.name
  }

  /** That is so whenever all entries see one list of devices; some of them may see none. */
  lemma OneListIsDistinct(devices: seq<Device>, calls: string -> Call, addrs: set<string>)
    requires UniqueNames(devices)
    requires forall addr :: addr in addrs ==> calls(addr).devices.None? || calls(addr).devices.value == devices
    ensures DistinctTargetsIn(calls, addrs)
  {
    forall a, b | a in addrs && b in addrs && a != b && Target(calls(a), a).Some? && Target(calls(b), b).Some?
      ensures Target(calls(a), a).value.name != Target(calls(b), b).value.name
    {
      DistinctAddressesDistinctDevices(devices, a, b);
    }
  }

  lemma {:induction false} ReceivedNone(calls: string -> Call, entries: map<string, ZigbeeDevice>, visits: seq<Visit>,
                                        d: string, db: Database, v: Option<DeviceView>)
    requires AreEntries(visits, entries) && forall i :: 0 <= i < |visits| ==> !Delivers(calls, visits[i], d, db)
    ensures Received(calls, entries, visits, d, db, v) == v
  {
    if visits != [] {
      ReceivedNone(calls, entries, visits[..|visits| - 1], d, db, v);
    }
  }

  lemma ReceivedSkips(calls: string -> Call, entries: map<string, ZigbeeDevice>, visits: seq<Visit>,
                      d: string, db: Database, v: Option<DeviceView>)
    requires AreEntries(visits, entries) && visits != [] && !Delivers(calls, visits[|visits| - 1], d, db)
    ensures Received(calls, entries, visits, d, db, v) == Received(calls, entries, visits[..|visits| - 1], d, db, v)
  {
  }

  lemma {:induction false} ReceivedOnly(calls: string -> Call, entries: map<string, ZigbeeDevice>, visits: seq<Visit>,
                                        d: string, db: Database, v: Option<DeviceView>, k: nat, after: Option<DeviceView>)
    requires AreEntries(visits, entries) && k < |visits| && after == AfterVisit(calls, entries, visits[k], d, db, v)
    requires forall i :: 0 <= i < |visits| && i != k ==> !Delivers(calls, visits[i], d, db)
    ensures Received(calls, entries, visits, d, db, v) == after
  {
    var n := |visits| - 1;
    if k == n {
      ReceivedNone(calls, entries, visits[..n], d, db, v);
    } else {
      ReceivedSkips(calls, entries, visits, d, db, v);
      ReceivedOnly(calls, entries, visits[..n], d, db, v, k, after);
    }
  }

  /** The one entry that reaches a device decides what it receives, wherever in the order it stands and whatever fails elsewhere. */
  lemma ReceivedFrom(calls: string -> Call, entries: map<string, ZigbeeDevice>, visits: seq<Visit>,
                     d: string, db: Database, v: Option<DeviceView>, k: nat)
    requires AreEntries(visits, entries) && k < |visits| && Delivers(calls, visits[k], d, db)
    requires forall i :: 0 <= i < |visits| && i != k ==> !Delivers(calls, visits[i], d, db)
    ensures Received(calls, entries, visits, d, db, v)
         == EntryContribution(calls(visits[k].addr), visits[k].addr, entries[visits[k].addr], v)
  {
    ReceivedOnly(calls, entries, visits, d, db, v, k, AfterVisit(calls, entries, visits[k], d, db, v));
  }

  lemma OnlyOneDelivers(calls: string -> Call, visits: seq<Visit>, addrs: set<string>, d: string, db: Database, k: nat)
    requires IsOrder(visits, addrs) && DistinctTargetsIn(calls, addrs)
    requires k < |visits| && Delivers(calls, visits[k], d, db)
    ensures forall i :: 0 <= i < |visits| && i != k ==> !Delivers(calls, visits[i], d, db)
  {
    forall i | 0 <= i < |visits| && i != k ensures !Delivers(calls, visits[i], d, db) {
      assert visits[i].addr != visits[k].addr;
    }
  }

  /** Two orders in which every entry reaches the same database. */
  ghost predicate SameRoutes(a: seq<Visit>, b: seq<Visit>) {
    forall i, j :: 0 <= i < |a| && 0 <= j < |b| && a[i].addr == b[j].addr ==> a[i].to == b[j].to
  }

  /** The order in which the map is visited does not matter. */
  lemma VisitingOrderIsIrrelevant(calls: string -> Call, entries: map<string, ZigbeeDevice>, a: seq<Visit>, b: seq<Visit>,
                                  d: string, db: Database, v: Option<DeviceView>)
    requires IsOrder(a, entries.Keys) && IsOrder(b, entries.Keys) && SameRoutes(a, b) && DistinctTargetsIn(calls, entries.Keys)
    ensures Received(calls, entries, a, d, db, v) == Received(calls, entries, b, d, db, v)
  {
    if k: nat :| k < |a| && Delivers(calls, a[k], d, db) {
      var j: nat :| j < |b| && b[j].addr == a[k].addr;
      OnlyOneDelivers(calls, a, entries.Keys, d, db, k);
      OnlyOneDelivers(calls, b, entries.Keys, d, db, j);
      ReceivedFrom(calls, entries, a, d, db, v, k);
      ReceivedFrom(calls, entries, b, d, db, v, j);
    } else {
      forall j | 0 <= j < |b| ensures !Delivers(calls, b[j], d, db) {
        var addr := b[j].addr;
        assert addr in entries.Keys;
        var i :| 0 <= i < |a| && a[i].addr == addr;
        assert !Delivers(calls, a[i], d, db);
      }
      ReceivedNone(calls, entries, a, d, db, v);
      ReceivedNone(calls, entries, b, d, db, v);
    }
  }

  // ------------------------------------------------------------- disabled devices

  /** The same devices, with other disabled flags. */
  ghost predicate SameButDisabled(a: seq<Device>, b: seq<Device>) {
    |a| == |b| && forall i :: 0 <= i < |a| ==> a[i] == b[i].(disabled := a[i].disabled)
  }

  ghost predicate SameCall(a: Call, b: Call) {
    && a.faults == b.faults && (a.devices.Some? <==> b.devices.Some?)
    && (a.devices.Some? ==> SameButDisabled(a.devices.value, b.devices.value))
  }

  lemma {:induction false} FindIgnoresDisabled(a: seq<Device>, b: seq<Device>, addr: string)
    requires SameButDisabled(a, b)
    ensures var x, y := FindByShortAddr(a, addr), FindByShortAddr(b, addr);
            (x.Some? <==> y.Some?) && (x.Some? ==> x.value == y.value.(disabled := x.value.disabled))
    decreases |a|
  {
    if a != [] {
      FindIgnoresDisabled(a[1..], b[1..], addr);
    }
  }

  lemma FieldIgnoresDisabled(d: Device, d': Device, zb: ZigbeeDevice, f: Field)
    requires d' == d.(disabled := d'.disabled)
    ensures FieldValue(d', zb, f) == FieldValue(d, zb, f)
  {
  }

  lemma PayloadIgnoresDisabled(d: Device, d': Device, zb: ZigbeeDevice)
    requires d' == d.(disabled := d'.disabled)
    ensures PayloadOf(d', zb) == PayloadOf(d, zb)
  {
    var p := PayloadOf(d', zb);
    forall f: Field ensures Lookup(p, KeyOf(f)) == FieldValue(d, zb, f) {
      FieldIgnoresDisabled(d, d', zb, f);
    }
    PayloadUnique(p, PayloadOf(d, zb), d, zb);
  }

  lemma VisitIgnoresDisabled(a: string -> Call, b: string -> Call, entries: map<string, ZigbeeDevice>, visit: Visit,
                             d: string, db: Database, v: Option<DeviceView>)
    requires visit.addr in entries && SameCall(a(visit.addr), b(visit.addr))
    ensures AfterVisit(a, entries, visit, d, db, v) == AfterVisit(b, entries, visit, d, db, v)
  {
    if a(visit.addr).devices.Some? {
      FindIgnoresDisabled(a(visit.addr).devices.value, b(visit.addr).devices.value, visit.addr);
      var x, y := Target(a(visit.addr), visit.addr), Target(b(visit.addr), visit.addr);
      if x.Some? {
        PayloadIgnoresDisabled(y.value, x.value, entries[visit.addr]);
      }
    }
  }

  /** The disabled flag has no part in what is stored: with any other flags every device receives the same. */
  lemma {:induction false} DisabledIsStoredAlike(a: string -> Call, b: string -> Call, entries: map<string, ZigbeeDevice>,
                                                 visits: seq<Visit>, d: string, db: Database, v: Option<DeviceView>)
    requires AreEntries(visits, entries) && forall addr :: addr in entries ==> SameCall(a(addr), b(addr))
    ensures Received(a, entries, visits, d, db, v) == Received(b, entries, visits, d, db, v)
  {
    if visits != [] {
      var n := |visits| - 1;
      DisabledIsStoredAlike(a, b, entries, visits[..n], d, db, v);
      VisitIgnoresDisabled(a, b, entries, visits[n], d, db, Received(a, entries, visits[..n], d, db, v));
    }
  }

  // --------------------------------------------------------------------- routing

  /** Some connection lists the sensor type. */
  ghost predicate IsListed(m: Manager, sensorType: string)
    reads m`connections
  {
    exists key :: key in m.connections && Lists(m.connections[key].database, sensorType)
  }

  /** The sensor type may be routed to a connection whose database is db. */
  ghost predicate RoutesTo(m: Manager, sensorType: string, db: Database)
    reads m`connections
  {
    exists key :: key in m.connections && Lists(m.connections[key].database, sensorType)
                  && m.connections[key].db.database == db
  }

  /** A manager in a reachable state. */
  ghost predicate Steady(m: Manager)
    reads m, m.connections.Values, m.pools
  {
    m.Valid() && Inv(m.State())
  }

  /** And the databases behind its pools satisfy the relational invariant. */
  ghost predicate Ready(m: Manager)
    reads m, m.connections.Values, m.pools, set p: Pool | p in m.pools :: p.database
  {
    Steady(m) && forall p :: p in m.pools ==> ValidTables(p.database.Contents())
  }

  /** An entry reaches a database that its sensor type is routed to, if there is one. */
  ghost predicate GoesWhereListed(m: Manager, call: Call, visit: Visit)
    reads m`connections
  {
    var target := Target(call, visit.addr);
    && (visit.to.Some? ==> target.Some? && RoutesTo(m, target.value.sensorType, visit.to.value))
    && (visit.to.None? && target.Some? ==> !IsListed(m, target.value.sensorType))
  }

  /** The connection that the loop stopped at has its handler, on its own open pool. */
  lemma RouteFound(m: Manager, via: Connection, sensorType: string)
    requires Steady(m) && via in m.connections.Values && Lists(via.database, sensorType) && KindOf(sensorType).Some?
    ensures via.db in m.pools && via.HandlerDb(KindOf(sensorType).value) == via.db && via.db.open
    ensures RoutesTo(m, sensorType, via.db.database)
  {
    var k := KindOf(sensorType).value;
    assert KindName(k) == sensorType;
    var key :| key in m.connections && m.connections[key] == via;
    var s := m.State();
    assert s.connections[key] == via.View();
    assert HandlersMatch(s.connections[key]);
    assert HandlerPool(via.View(), k) == via.HandlerId(k);
    assert m.pools[via.db.id] == via.db;
  }

  /** If at most one connection lists a type there is only one place to go. */
  lemma RouteIsUnique(m: Manager, sensorType: string, a: Database, b: Database)
    requires Steady(m) && AtMostOneLists(m.State(), sensorType)
    requires RoutesTo(m, sensorType, a) && RoutesTo(m, sensorType, b)
    ensures a == b
  {
    var s := m.State();
    var k :| k in m.connections && Lists(m.connections[k].database, sensorType) && m.connections[k].db.database == a;
    var l :| l in m.connections && Lists(m.connections[l].database, sensorType) && m.connections[l].db.database == b;
    assert s.connections[k] == m.connections[k].View() && s.connections[l] == m.connections[l].View();
    assert Candidate(s, sensorType, k) && Candidate(s, sensorType, l);
  }

  ghost predicate AllGoWhereListed(m: Manager, calls: string -> Call, visits: seq<Visit>)
    reads m`connections
  {
    forall i :: 0 <= i < |visits| ==> GoesWhereListed(m, calls(visits[i].addr), visits[i])
  }

  /** So, with no type listed twice, two runs over the same message reach the same databases whatever the order of either map. */
  lemma RoutesAgree(m: Manager, calls: string -> Call, a: seq<Visit>, b: seq<Visit>)
    requires Steady(m) && (forall k: Kind :: AtMostOneLists(m.State(), KindName(k)))
    requires AllGoWhereListed(m, calls, a) && AllGoWhereListed(m, calls, b)
    ensures SameRoutes(a, b)
  {
    forall i, j | 0 <= i < |a| && 0 <= j < |b| && a[i].addr == b[j].addr ensures a[i].to == b[j].to {
      var target := Target(calls(a[i].addr), a[i].addr);
      assert GoesWhereListed(m, calls(a[i].addr), a[i]) && GoesWhereListed(m, calls(a[i].addr), b[j]);
      if a[i].to.Some? && b[j].to.Some? {
        assert KindName(KindOf(target.value.sensorType).value) == target.value.sensorType;
        RouteIsUnique(m, target.value.sensorType, a[i].to.value, b[j].to.value);
      }
    }
  }

  // --------------------------------------------------------------------- handler

  /** Every device has what the visits make of what it had before. */
  ghost predicate HasReceived(now: Tables, before: Tables, calls: string -> Call, entries: map<string, ZigbeeDevice>,
                              visits: seq<Visit>, db: Database)
    requires AreEntries(visits, entries)
  {
    forall d: string :: ViewOf(now, d) == Received(calls, entries, visits, d, db, ViewOf(before, d))
  }

  lemma OpenIsEffective(f: Faults)
    ensures Effective(f, true) == f
  {
  }

  lemma EntryStoreViews(t: Tables, call: Call, addr: string, zb: ZigbeeDevice, now: int)
    requires ValidTables(t) && Target(call, addr).Some?
    ensures var t' := EntryStore(t, call, addr, zb, now).0;
            && ValidTables(t')
            && forall d: string :: ViewOf(t', d) == if d == Target(call, addr).value.name
                                                    then EntryContribution(call, addr, zb, ViewOf(t, d)) else ViewOf(t, d)
  {
    var dev, k := Target(call, addr).value, TargetKind(call, addr);
    var p := PayloadOf(dev, zb);
    StoreValid(t, k, dev.name, p, now, call.faults);
    forall d: string ensures ViewOf(Store(t, k, dev.name, p, now, call.faults).0, d)
                          == if d == dev.name then Contribution(ViewOf(t, d), k, p, call.faults) else ViewOf(t, d) {
      StoreViews(t, k, dev.name, p, now, call.faults, d);
    }
  }

  /** One more visit, for one database. */
  lemma HasReceivedStep(after: Tables, mid: Tables, before: Tables, calls: string -> Call, entries: map<string, ZigbeeDevice>,
                        visits: seq<Visit>, visit: Visit, now: int, db: Database)
    requires AreEntries(visits, entries) && visit.addr in entries && ValidTables(mid)
    requires HasReceived(mid, before, calls, entries, visits, db)
    requires visit.to.Some? ==> Target(calls(visit.addr), visit.addr).Some?
    requires after == if visit.to == Some(db) then EntryStore(mid, calls(visit.addr), visit.addr, entries[visit.addr], now).0 else mid
    ensures ValidTables(after) && HasReceived(after, before, calls, entries, visits + [visit], db)
  {
    var more := visits + [visit];
    if visit.to == Some(db) {
      EntryStoreViews(mid, calls(visit.addr), visit.addr, entries[visit.addr], now);
    }
    forall d: string ensures ViewOf(after, d) == Received(calls, entries, more, d, db, ViewOf(before, d)) {
      assert more[..|more| - 1] == visits;
    }
  }

  class TelemetryHandler {
    const dbManager: Manager

    constructor (dbManager: Manager)
      ensures this.dbManager == dbManager
    {
      this.dbManager := dbManager;
    }

    /** Hand a payload to the manager; via is the pool it is written through, if any. */
    method Route(deviceName: string, sensorType: string, payload: Payload, f: Faults)
      returns (ok: bool, now: int, ghost via: Pool?)
      requires Steady(dbManager)
      modifies set p: Pool | p in dbManager.pools :: p.database
      ensures Steady(dbManager)
      ensures via == null <==> KindOf(sensorType).None? || !IsListed(dbManager, sensorType)
      ensures via != null ==> via in dbManager.pools && RoutesTo(dbManager, sensorType, via.database)
      ensures via != null ==>
                via.database.Contents()
                == Store(old(via.database.Contents()), KindOf(sensorType).value, deviceName, payload, now, f).0
      ensures ok <==> via != null && Store(old(via.database.Contents()), KindOf(sensorType).value, deviceName, payload, now, f).1
      ensures forall p :: p in dbManager.pools && (via == null || p.database != via.database) ==>
                p.database.Contents() == old(p.database.Contents())
    {
      now := *;
      var r: StoreOutcome;
      ghost var found: Connection?;
      ghost var target: Database?;
      r, found, target := dbManager.StoreMeasurement(deviceName, sensorType, payload, now, f);
      ok, via := r == Stored, null;
      assert Steady(dbManager);
      assert found == null <==> !IsListed(dbManager, sensorType);
      if found != null && KindOf(sensorType).Some? {
        RouteFound(dbManager, found, sensorType);
        OpenIsEffective(f);
        via := found.db;
        assert target == via.database;
      } else {
        assert target == null && !ok;
      }
    }

    /** Store the measurement of a known device with a sensor type. */
    method StoreMeasurement(device: Device, zb: ZigbeeDevice, f: Faults) returns (ok: bool, now: int, ghost via: Pool?)
      requires Steady(dbManager)
      modifies set p: Pool | p in dbManager.pools :: p.database
      ensures Steady(dbManager)
      ensures via == null <==> KindOf(device.sensorType).None? || !IsListed(dbManager, device.sensorType)
      ensures via != null ==> via in dbManager.pools && RoutesTo(dbManager, device.sensorType, via.database)
      ensures via != null ==>
                via.database.Contents()
                == Store(old(via.database.Contents()), KindOf(device.sensorType).value, device.name, PayloadOf(device, zb), now, f).0
      ensures ok <==> via != null
                      && Store(old(via.database.Contents()), KindOf(device.sensorType).value, device.name, PayloadOf(device, zb), now, f).1
      ensures forall p :: p in dbManager.pools && (via == null || p.database != via.database) ==>
                p.database.Contents() == old(p.database.Contents())
    {
      var payload := BuildPayload(device, zb);
      ok, now, via := Route(device.name, device.sensorType, payload, f);
    }

    /**
     One entry of a message: find the device, and store its measurement if it has a
     sensor type.  An unknown device or one without a type is no error.
     */
    method ProcessZigbeeDevice(addr: string, zb: ZigbeeDevice, call: Call) returns (ok: bool, ghost now: int, ghost via: Pool?)
      requires Steady(dbManager)
      modifies set p: Pool | p in dbManager.pools :: p.database
      ensures Steady(dbManager)
      ensures via == null <==> Target(call, addr).None? || !IsListed(dbManager, Target(call, addr).value.sensorType)
      ensures via != null ==> via in dbManager.pools && RoutesTo(dbManager, Target(call, addr).value.sensorType, via.database)
      ensures via != null ==> via.database.Contents() == EntryStore(old(via.database.Contents()), call, addr, zb, now).0
      ensures ok <==> if via != null then EntryStore(old(via.database.Contents()), call, addr, zb, now).1
                      else call.devices.Some? && (Known(call, addr).None? || Known(call, addr).value.sensorType == "")
      ensures forall p :: p in dbManager.pools && (via == null || p.database != via.database) ==>
                p.database.Contents() == old(p.database.Contents())
    {
      now, via := 0, null;
      if call.devices.None? {
        return false, now, via;
      }
      var existing := FindByShortAddr(call.devices.value, addr);
      if existing.None? || existing.value.sensorType == "" {
        return true, now, via;
      }
      ok, now, via := StoreMeasurement(existing.value, zb, call.faults);
    }

    ghost function Snapshot(): (r: map<Pool, Tables>)
      reads dbManager`pools, set p: Pool | p in dbManager.pools :: p.database
      ensures forall p :: p in dbManager.pools ==> p in r && r[p] == p.database.Contents()
    {
      map p: Pool | p in dbManager.pools :: p.database.Contents()
    }

    /** All databases have received the visits since they had the contents before, and satisfy the relational invariant. */
    ghost predicate ReceivedSoFar(before: map<Pool, Tables>, calls: string -> Call, entries: map<string, ZigbeeDevice>, visits: seq<Visit>)
      requires AreEntries(visits, entries)
      reads dbManager`pools, set p: Pool | p in dbManager.pools :: p.database
    {
      forall p :: p in dbManager.pools ==>
        && p in before && ValidTables(p.database.Contents())
        && HasReceived(p.database.Contents(), before[p], calls, entries, visits, p.database)
    }

    /** The visit has changed every database from what it was in mid to what its store makes of it. */
    ghost predicate Visited(mid: map<Pool, Tables>, calls: string -> Call, entries: map<string, ZigbeeDevice>, visit: Visit, now: int)
      requires visit.addr in entries && (visit.to.Some? ==> Target(calls(visit.addr), visit.addr).Some?)
      reads dbManager`pools, set p: Pool | p in dbManager.pools :: p.database
    {
      forall p :: p in dbManager.pools ==>
        && p in mid
        && p.database.Contents() == if visit.to == Some(p.database)
                                    then EntryStore(mid[p], calls(visit.addr), visit.addr, entries[visit.addr], now).0 else mid[p]
    }

    lemma ReceivedOneMore(before: map<Pool, Tables>, mid: map<Pool, Tables>, calls: string -> Call,
                          entries: map<string, ZigbeeDevice>, visits: seq<Visit>, visit: Visit, now: int)
      requires AreEntries(visits, entries) && visit.addr in entries
      requires visit.to.Some? ==> Target(calls(visit.addr), visit.addr).Some?
      requires forall p :: p in dbManager.pools ==> p in mid && p in before
      requires forall p :: p in dbManager.pools ==>
                 ValidTables(mid[p]) && HasReceived(mid[p], before[p], calls, entries, visits, p.database)
      requires Visited(mid, calls, entries, visit, now)
      ensures ReceivedSoFar(before, calls, entries, visits + [visit])
    {
      forall p | p in dbManager.pools
        ensures ValidTables(p.database.Contents())
        ensures HasReceived(p.database.Contents(), before[p], calls, entries, visits + [visit], p.database)
      {
        HasReceivedStep(p.database.Contents(), mid[p], before[p], calls, entries, visits, visit, now, p.database);
      }
    }

    /** One turn of the loop. */
    method ProcessNext(ghost before: map<Pool, Tables>, ghost visits: seq<Visit>, remaining: set<string>, addr: string,
                       calls: string -> Call, entries: map<string, ZigbeeDevice>) returns (ok: bool, ghost visit: Visit)
      requires Steady(dbManager) && addr in remaining && remaining <= entries.Keys
      requires AreEntries(visits, entries) && IsOrder(visits, entries.Keys - remaining) && AllGoWhereListed(dbManager, calls, visits)
      requires ReceivedSoFar(before, calls, entries, visits)
      modifies set p: Pool | p in dbManager.pools :: p.database
      ensures Steady(dbManager) && AreEntries(visits + [visit], entries)
      ensures IsOrder(visits + [visit], entries.Keys - (remaining - {addr})) && AllGoWhereListed(dbManager, calls, visits + [visit])
      ensures ReceivedSoFar(before, calls, entries, visits + [visit])
    {
      ghost var now: int;
      ghost var via: Pool?;
      ghost var mid := Snapshot();
      ok, now, via := ProcessZigbeeDevice(addr, entries[addr], calls(addr));
      visit := Visit(addr, if via == null then None else Some(via.database));
      ReceivedOneMore(before, mid, calls, entries, visits, visit, now);
      OrderGrows(visits, entries.Keys, remaining, visit);
      ListedGrows(dbManager, calls, visits, visit);
    }

    /** The loop over the entries, in any order; it goes on after a failing one. */
    method ProcessAll(entries: map<string, ZigbeeDevice>, calls: string -> Call) returns (ghost visits: seq<Visit>)
      requires Ready(dbManager)
      modifies set p: Pool | p in dbManager.pools :: p.database
      ensures Steady(dbManager) && IsOrder(visits, entries.Keys) && AllGoWhereListed(dbManager, calls, visits)
      ensures ReceivedSoFar(old(Snapshot()), calls, entries, visits)
    {
      visits := [];
      ghost var before := Snapshot();
      var remaining := entries.Keys;
      while remaining != {}
        invariant remaining <= entries.Keys && Steady(dbManager) && IsOrder(visits, entries.Keys - remaining)
        invariant AreEntries(visits, entries) && AllGoWhereListed(dbManager, calls, visits)
        invariant ReceivedSoFar(before, calls, entries, visits)
      {
        var addr :| addr in remaining;
        var stored: bool;
        ghost var visit: Visit;
        stored, visit := ProcessNext(before, visits, remaining, addr, calls, entries);
        remaining, visits := remaining - {addr}, visits + [visit];
        if !stored {
          continue;
        }
      }
      assert entries.Keys - {} == entries.Keys;
    }

    /**
     One telemetry message, None if it does not parse.  The loop may visit the map in
     any order and goes on after a failing entry; each entry lists the devices for
     itself.  visits is the order it took and where each entry went.
     */
    method HandleMessage(msg: Option<map<string, ZigbeeDevice>>, calls: string -> Call) returns (ok: bool, ghost visits: seq<Visit>)
      requires Ready(dbManager)
      modifies set p: Pool | p in dbManager.pools :: p.database
      ensures Ready(dbManager)
      ensures ok <==> msg.Some?
      ensures var entries := if msg.None? then map[] else msg.value;
              && IsOrder(visits, entries.Keys) && AllGoWhereListed(dbManager, calls, visits)
              && forall p :: p in dbManager.pools ==>
                   HasReceived(p.database.Contents(), old(p.database.Contents()), calls, entries, visits, p.database)
    {
      if msg.None? {
        return false, [];
      }
      visits := ProcessAll(msg.value, calls);
      ok := true;
    }
  }

  lemma ListedGrows(m: Manager, calls: string -> Call, visits: seq<Visit>, visit: Visit)
    requires AllGoWhereListed(m, calls, visits) && GoesWhereListed(m, calls(visit.addr), visit)
    ensures AllGoWhereListed(m, calls, visits + [visit])
  {
  }

  lemma OrderGrows(visits: seq<Visit>, addrs: set<string>, remaining: set<string>, visit: Visit)
    requires IsOrder(visits, addrs - remaining) && visit.addr in remaining && remaining <= addrs
    ensures IsOrder(visits + [visit], addrs - (remaining - {visit.addr}))
  {
    var more := visits + [visit];
    forall addr | addr in addrs - (remaining - {visit.addr}) ensures exists i :: 0 <= i < |more| && more[i].addr == addr {
      if addr == visit.addr {
        assert more[|visits|].addr == addr;
      } else {
        assert addr in addrs - remaining;
        var i :| 0 <= i < |visits| && visits[i].addr == addr;
        assert more[i].addr == addr;
      }
    }
  }
}
