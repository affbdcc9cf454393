/** From a telemetry entry to the alert: what the store writes is what the query reads. */
module EndToEnd {
  import opened Common
  import opened Collecting
  import opened Float64
  import opened Devices
  import opened Tables
  import opened Handlers
  import opened Manager
  import opened Connections
  import opened Telemetry
  import opened Ingest
  import opened Alerts

  // ------------------------------------------------------------------ written and read

  /** A corrected integer after its way through float64 and back. */
  function IntOf(v: Option<int>, key: string, d: Device): Option<int> {
    match v
    case None => None
    case Some(n) => Some(Detour(CorrectInt(n, key, d)))
  }

  function CorrectedInt(v: Option<int>, key: string, d: Device): Option<real> {
    IntCell(IntOf(v, key, d))
  }

  function PlainInt(v: Option<int>): Option<real> {
    match v
    case None => None
    case Some(n) => Some(Detour(n) as real)
  }

  /** The corrected telemetry value behind each alert column. */
  function Sensed(d: Device, zb: ZigbeeDevice, c: Column): Option<real> {
    match c
    case Temperature => Plus(zb.temperature, RealCorrection("temperature", d))
    case Humidity => Plus(zb.humidity, RealCorrection("humidity", d))
    case Level => CorrectedInt(zb.waterLevel, "water_level", d)
    case Power => CorrectedInt(zb.power, "power", d)
    case LastValveOpenDuration => CorrectedInt(zb.lastValveOpenDuration, "last_valve_open_duration", d)
    case IrrigationStartTime => PlainInt(zb.irrigationStartTime)
    case IrrigationEndTime => PlainInt(zb.irrigationEndTime)
    case DailyIrrigationVolume => CorrectedInt(zb.dailyIrrigationVolume, "daily_irrigation_volume", d)
    case Endpoint => PlainInt(zb.endpoint)
  }

  /** The payload entry that a column is filled from. */
  function FieldOf(c: Column): Field {
    match c
    case Temperature => FTemperature
    case Humidity => FHumidity
    case Level => FWaterLevel
    case Power => FPower
    case LastValveOpenDuration => FLastValveOpenDuration
    case IrrigationStartTime => FIrrigationStartTime
    case IrrigationEndTime => FIrrigationEndTime
    case DailyIrrigationVolume => FDailyIrrigationVolume
    case Endpoint => FEndpoint
  }

  function NumberIn(v: Option<Value>): Option<real> {
    if v.Some? && v.value.Number? then Some(v.value.number) else None
  }

  /** Integer columns convert back. */
  function Stored(c: Column, v: Option<real>): Option<real> {
    if v.None? then None else if c.Temperature? || c.Humidity? then v else Some(ToInt(v.value) as real)
  }

  lemma NumberUnder(d: Device, zb: ZigbeeDevice, f: Field)
    ensures GetNumber(PayloadOf(d, zb), KeyOf(f)) == NumberIn(FieldValue(d, zb, f))
  {
    assert Lookup(PayloadOf(d, zb), KeyOf(f)) == FieldValue(d, zb, f);
  }

  lemma StoredIsSensed(d: Device, zb: ZigbeeDevice, c: Column)
    ensures Stored(c, NumberIn(FieldValue(d, zb, FieldOf(c)))) == Sensed(d, zb, c)
  {
  }

  lemma CellIsStored(p: Payload, k: Kind, c: Column)
    requires HasColumn(k, c)
    ensures Cell(ReadingOf(k, p), c) == Stored(c, GetNumber(p, KeyOf(FieldOf(c))))
  {
  }

  /** Both sides agree on the columns: the cell that the query reads is the corrected telemetry value. */
  lemma CellIsSensed(d: Device, zb: ZigbeeDevice, k: Kind, c: Column)
    requires HasColumn(k, c)
    ensures Cell(ReadingOf(k, PayloadOf(d, zb)), c) == Sensed(d, zb, c)
  {
    CellIsStored(PayloadOf(d, zb), k, c);
    NumberUnder(d, zb, FieldOf(c));
    StoredIsSensed(d, zb, c);
  }

  /**
   A temperature or humidity is stored as the raw value plus the device's correction, in both
   tables that have it, and as NULL exactly when the message lacks it.
   */
  lemma SensedReal(d: Device, zb: ZigbeeDevice, k: Kind)
    requires k.Moisture? || k.Room?
    ensures var r := ReadingOf(k, PayloadOf(d, zb));
            && r.temperature == Plus(zb.temperature, RealCorrection("temperature", d))
            && r.humidity == Plus(zb.humidity, RealCorrection("humidity", d))
  {
    CellIsSensed(d, zb, k, Temperature);
    CellIsSensed(d, zb, k, Humidity);
  }

  lemma IntUnder(d: Device, zb: ZigbeeDevice, f: Field, v: Option<int>, key: string)
    requires FieldValue(d, zb, f) == IntField(v, key, d)
    ensures GetInt(PayloadOf(d, zb), KeyOf(f)) == IntOf(v, key, d)
  {
    NumberUnder(d, zb, f);
  }

  /** The battery table gets the corrected battery percentage, except from rooms. */
  lemma BatteryIsSensed(d: Device, zb: ZigbeeDevice, k: Kind, f: Faults)
    ensures BatteryOf(k, PayloadOf(d, zb), f)
         == if k.Room? || f.battery then None else IntOf(zb.batteryPercentage, "battery_percentage", d)
  {
    IntUnder(d, zb, FBatteryPercentage, zb.batteryPercentage, "battery_percentage");
  }

  /** The link-quality table gets the corrected link quality. */
  lemma LinkQualityIsSensed(d: Device, zb: ZigbeeDevice, f: Faults)
    ensures LinkQualityOf(PayloadOf(d, zb), f) == if f.linkQuality then None else IntOf(zb.linkQuality, "link_quality", d)
  {
    IntUnder(d, zb, FLinkQuality, zb.linkQuality, "link_quality");
  }

  // ------------------------------------------------------------------ a window of one row

  lemma {:induction false} EmptyWindow(rows: seq<Measurement>, id: nat, since: int)
    requires forall i :: 0 <= i < |rows| && rows[i].deviceId == id ==> rows[i].timestamp < since
    ensures Window(rows, id, since) == []
  {
    if rows != [] {
      EmptyWindow(rows[..|rows| - 1], id, since);
    }
  }

  lemma AverageSingle(x: real)
    ensures Average([x]) == x
  {
    var values := [x];
    assert values[..0] == [];
    assert Sum(values) == x;
    assert |values| as real == 1.0;
    assert x / 1.0 == x;
  }

  lemma ValuesOfOne(m: Measurement, c: Column)
    ensures Values([m], c) == OptionSeq(Cell(m.reading, c)) && Last([m]) == Some(m.timestamp)
  {
    assert [m][..0] == [];
  }

  lemma AverageOfOne(m: Measurement, c: Column)
    ensures Average(Values([m], c)) == (if Cell(m.reading, c).Some? then Cell(m.reading, c).value else 0.0)
    ensures Last([m]) == Some(m.timestamp)
  {
    ValuesOfOne(m, c);
    if Cell(m.reading, c).Some? {
      AverageSingle(Cell(m.reading, c).value);
    }
  }

  lemma WindowOfOne(rows: seq<Measurement>, m: Measurement, device: DeviceRow, c: Column, since: int)
    requires forall i :: 0 <= i < |rows| && rows[i].deviceId == device.id ==> rows[i].timestamp < since
    requires m.deviceId == device.id && m.timestamp >= since
    ensures AverageIn(rows + [m], device, c, since)
         == Value(device, if Cell(m.reading, c).Some? then Cell(m.reading, c).value else 0.0, m.timestamp)
  {
    EmptyWindow(rows, device.id, since);
    assert (rows + [m])[..|rows|] == rows;
    assert Window(rows + [m], device.id, since) == [m];
    AverageOfOne(m, c);
  }

  // ----------------------------------------------------------------- one store, one query

  /** No row of the device in the window that begins at since. */
  ghost predicate OnlyOld(t: Tables, k: Kind, deviceId: string, since: int) {
    var at := IndexOf(t.devices, deviceId);
    at.Some? ==> forall i :: 0 <= i < |Rows(t, k)| && Rows(t, k)[i].deviceId == t.devices[at.value].id ==> Rows(t, k)[i].timestamp < since
  }

  /** The device is to be alerted on, and its measurement names column c, which its type has. */
  predicate Asks(d: Device, c: Column) {
    d.alert.Some? && !d.disabled && IsNameOf(d.alert.value.measurement, c) && Measures(d.sensorType, c)
  }

  /** Two devices share their rows: a name in different namespaces, and a type.  Rows and alerts know only the bare name. */
  predicate ShareRows(d: Device, e: Device) {
    d.name == e.name && d.sensorType == e.sensorType
  }

  /** A value that is missing reads as zero. */
  function OrZero(v: Option<real>): real {
    if v.Some? then v.value else 0.0
  }

  lemma StoredRow(t: Tables, k: Kind, deviceId: string, p: Payload, now: int, f: Faults)
    requires ValidTables(t) && Store(t, k, deviceId, p, now, f).1
    ensures var t', at := Store(t, k, deviceId, p, now, f).0, IndexOf(t.devices, deviceId);
            var i := IndexOf(t'.devices, deviceId);
            && i.Some? && t'.devices[i.value].id == (if at.Some? then t.devices[at.value].id else t.nextId)
            && Rows(t', k) == Rows(t, k) + [Measurement(now, t'.devices[i.value].id, ReadingOf(k, p))]
  {
    var (t1, id) := FindOrCreate(t, k, deviceId, p, f);
    FindOrCreateViews(t, k, deviceId, p, f, deviceId);
    FindOrCreateRows(t, k, deviceId, p, f);
    InsertShape(t1, k, id.value, p, now, f);
  }

  lemma NoRowOfNewDevice(t: Tables, k: Kind)
    requires ValidTables(t)
    ensures forall i :: 0 <= i < |Rows(t, k)| ==> Rows(t, k)[i].deviceId != t.nextId
  {
    forall i | 0 <= i < |Rows(t, k)| ensures Rows(t, k)[i].deviceId != t.nextId {
      assert KnownId(t, Rows(t, k)[i].deviceId);
    }
  }

  /** After one store the average of its window is the value that was sensed. */
  lemma AverageAfterStore(t: Tables, d: Device, zb: ZigbeeDevice, k: Kind, now: int, f: Faults, c: Column, since: int)
    requires ValidTables(t) && Store(t, k, d.name, PayloadOf(d, zb), now, f).1
    requires HasColumn(k, c) && now >= since && OnlyOld(t, k, d.name, since)
    ensures var t' := Store(t, k, d.name, PayloadOf(d, zb), now, f).0; var i := IndexOf(t'.devices, d.name);
            i.Some? && AverageIn(Rows(t', k), t'.devices[i.value], c, since)
                       == Value(t'.devices[i.value], if Sensed(d, zb, c).Some? then Sensed(d, zb, c).value else 0.0, now)
  {
    var p := PayloadOf(d, zb);
    var t' := Store(t, k, d.name, p, now, f).0;
    StoredRow(t, k, d.name, p, now, f);
    NoRowOfNewDevice(t, k);
    var device := t'.devices[IndexOf(t'.devices, d.name).value];
    WindowOfOne(Rows(t, k), Measurement(now, device.id, ReadingOf(k, p)), device, c, since);
    CellIsSensed(d, zb, k, c);
  }

  /**
   End to end on the tables: after the telemetry of a device d has been stored, with
   no other row in the window, the alert of a device e that shares its rows, such as d
   itself, fires exactly when the value that d's corrections give meets e's condition.
   */
  lemma AlertFollowsTelemetry(t: Tables, d: Device, zb: ZigbeeDevice, now: int, f: Faults, e: Device, c: Column, q: Query, since: int)
    requires ValidTables(t) && ShareRows(d, e) && Asks(e, c) && !q.faults.device && !q.faults.measurements
    requires now >= SinceOf(q.now, since) && OnlyOld(t, KindOf(e.sensorType).value, e.name, SinceOf(q.now, since))
    ensures var (t', ok) := Store(t, KindOf(d.sensorType).value, d.name, PayloadOf(d, zb), now, f);
            ok && q.tables == Some(t') ==> (Firing(e, since, q).Some? <==> IsMet(e.alert.value, OrZero(Sensed(d, zb, c))))
  {
    var k := KindOf(e.sensorType).value;
    QueriedIsNamed(e.sensorType, e.alert.value.measurement, c);
    if Store(t, k, d.name, PayloadOf(d, zb), now, f).1 {
      AverageAfterStore(t, d, zb, k, now, f, c, SinceOf(q.now, since));
      EvaluateIsMet(OrZero(Sensed(d, zb, c)), e.alert.value);
    }
  }

  // ------------------------------------------------------------------ the data of other devices

  /** What the query reads for a device from the table of a kind. */
  function ValueIn(t: Tables, deviceId: string, k: Kind, c: Column, since: int): CurrentValue {
    match Found(t, deviceId)
    case None => Failed
    case Some(device) => AverageIn(Rows(t, k), device, c, since)
  }

  predicate SameValue(a: CurrentValue, b: CurrentValue) {
    (a.Value? <==> b.Value?) && (a.Value? ==> a.value == b.value && a.last == b.last)
  }

  /** What one store adds to the table of a kind: nothing, or a row of its device if it is of that kind. */
  lemma StoreRows(t: Tables, j: Job, k: Kind) returns (m: Measurement)
    requires ValidTables(t)
    ensures Rows(After(t, j), k) == Rows(t, k)
            || (k == j.kind && Rows(After(t, j), k) == Rows(t, k) + [m]
                && Found(After(t, j), j.deviceId).Some? && m.deviceId == Found(After(t, j), j.deviceId).value.id)
  {
    m := Measurement(j.now, 0, ReadingOf(j.kind, j.payload));
    StoreAddsOneMeasurement(t, j.kind, j.deviceId, j.payload, j.now, j.faults);
    if Store(t, j.kind, j.deviceId, j.payload, j.now, j.faults).1 {
      m := Measurement(j.now, Found(After(t, j), j.deviceId).value.id, ReadingOf(j.kind, j.payload));
    }
  }

  /** The store is for the rows that the alert of the device is about. */
  predicate Concerns(j: Job, deviceId: string, k: Kind) {
    j.deviceId == deviceId && j.kind == k
  }

  lemma OtherId(t: Tables, a: string, b: string)
    requires DistinctKeys(t.devices) && a != b && Found(t, a).Some? && Found(t, b).Some?
    ensures Found(t, a).value.id != Found(t, b).value.id
  {
    assert t.devices[IndexOf(t.devices, a).value].deviceId != t.devices[IndexOf(t.devices, b).value].deviceId;
  }

  lemma WindowKeeps(rows: seq<Measurement>, rows': seq<Measurement>, m: Measurement, id: nat, since: int)
    requires rows' == rows || (rows' == rows + [m] && m.deviceId != id)
    ensures Window(rows', id, since) == Window(rows, id, since)
  {
    WindowAppend(rows, m, id, since);
  }

  lemma ValueKeeps(rows: seq<Measurement>, rows': seq<Measurement>, m: Measurement, before: DeviceRow, after: DeviceRow, c: Column, since: int)
    requires before.id == after.id
    requires rows' == rows || (rows' == rows + [m] && m.deviceId != after.id)
    ensures SameValue(AverageIn(rows, before, c, since), AverageIn(rows', after, c, since))
  {
    WindowKeeps(rows, rows', m, after.id, since);
  }

  lemma NoValueYet(rows: seq<Measurement>, rows': seq<Measurement>, m: Measurement, after: DeviceRow, c: Column, since: int)
    requires forall i :: 0 <= i < |rows| ==> rows[i].deviceId != after.id
    requires rows' == rows || (rows' == rows + [m] && m.deviceId != after.id)
    ensures AverageIn(rows', after, c, since) == NoValue
  {
    EmptyWindow(rows, after.id, since);
    WindowKeeps(rows, rows', m, after.id, since);
  }

  lemma OtherRow(t: Tables, j: Job, deviceId: string, k: Kind) returns (m: Measurement)
    requires ValidTables(t) && !Concerns(j, deviceId, k)
    ensures var rows, rows', after := Rows(t, k), Rows(After(t, j), k), Found(After(t, j), deviceId);
            rows' == rows || (rows' == rows + [m] && (after.Some? ==> m.deviceId != after.value.id))
  {
    m := StoreRows(t, j, k);
    StoreValid(t, j.kind, j.deviceId, j.payload, j.now, j.faults);
    if deviceId != j.deviceId && Found(After(t, j), deviceId).Some? && Found(After(t, j), j.deviceId).Some? {
      OtherId(After(t, j), deviceId, j.deviceId);
    }
  }

  lemma OtherStoreKeepsValue(t: Tables, j: Job, t': Tables, deviceId: string, k: Kind, c: Column, since: int)
    requires ValidTables(t) && !Concerns(j, deviceId, k) && t' == After(t, j)
    ensures SameValue(ValueIn(t, deviceId, k, c, since), ValueIn(t', deviceId, k, c, since))
  {
    StoreKeepsKey(t, j.kind, j.deviceId, j.payload, j.now, j.faults, deviceId);
    var m := OtherRow(t, j, deviceId, k);
    var before, after := Found(t, deviceId), Found(t', deviceId);
    if before.Some? {
      ValueKeeps(Rows(t, k), Rows(t', k), m, before.value, after.value, c, since);
    } else if after.Some? {
      NoRowOfNewDevice(t, k);
      NoValueYet(Rows(t, k), Rows(t', k), m, after.value, c, since);
    }
  }

  /** The alert of a device fires in both tables or in neither, and with the same value and time. */
  predicate SameAlert(t: Tables, t': Tables, e: Device, since: int, now: int, faults: ReadFaults) {
    var a, b := Firing(e, since, Query(Some(t), now, faults)), Firing(e, since, Query(Some(t'), now, faults));
    (a.Some? <==> b.Some?) && (a.Some? ==> SameValue(a.value, b.value))
  }

  lemma OtherStoreKeepsAlert(t: Tables, j: Job, e: Device, since: int, now: int, faults: ReadFaults)
    requires ValidTables(t)
    requires KindOf(e.sensorType).Some? ==> !Concerns(j, e.name, KindOf(e.sensorType).value)
    ensures SameAlert(t, After(t, j), e, since, now, faults)
  {
    if e.alert.Some? && KindOf(e.sensorType).Some? && QueriedColumn(KindOf(e.sensorType).value, e.alert.value.measurement).Some? {
      var k := KindOf(e.sensorType).value;
      OtherStoreKeepsValue(t, j, After(t, j), e.name, k, QueriedColumn(k, e.alert.value.measurement).value, SinceOf(now, since));
    }
  }

  /**
   Whatever is stored for other names or into the tables of other kinds, in however many
   stores, an alert stays as it is.  So an alert is about the device's own data exactly as
   long as nothing is stored for another device that shares its rows; what is stored for
   one decides it just the same.
   */
  lemma {:induction false} OtherStoresKeepAlert(t: Tables, jobs: seq<Job>, e: Device, since: int, now: int, faults: ReadFaults)
    requires ValidTables(t)
    requires forall i :: 0 <= i < |jobs| && KindOf(e.sensorType).Some? ==> !Concerns(jobs[i], e.name, KindOf(e.sensorType).value)
    ensures SameAlert(t, Run(t, jobs), e, since, now, faults)
    decreases |jobs|
  {
    if jobs != [] {
      var j := jobs[0];
      OtherStoreKeepsAlert(t, j, e, since, now, faults);
      StoreValid(t, j.kind, j.deviceId, j.payload, j.now, j.faults);
      OtherStoresKeepAlert(After(t, j), jobs[1..], e, since, now, faults);
    }
  }

  /**
   An integer quantity reaches the alert as the 64-bit sum of raw value and truncated
   correction, after the detour through float64: exactly up to 2^53, and below the
   conversion limit off by at most the 2^53rd part.  The sum is the true one if and only
   if that fits.
   */
  lemma SensedInteger(d: Device, key: string, n: int)
    requires IsInt64(n)
    ensures var c := IntCorrection(key, d); var sum := Wrap64(n + c);
            && CorrectedInt(Some(n), key, d) == Some(Detour(sum) as real)
            && (sum == n + c <==> IsInt64(n + c))
            && (Abs(sum) <= PRECISION_LIMIT ==> CorrectedInt(Some(n), key, d) == Some(sum as real))
            && (sum < INT64_LIMIT - 512 ==> PRECISION_LIMIT * Abs(Detour(sum) - sum) <= Abs(sum))
  {
    var c := IntCorrection(key, d);
    assert CorrectInt(n, key, d) == Wrap64(n + c);
    DetourError(Wrap64(n + c));
  }

  // ------------------------------------------------------------------ the whole path

  /** In no database that lists the device's type is there a row of it in the window. */
  ghost predicate Alone(m: Manager, d: Device, since: int)
    reads m`connections, set c | c in m.connections.Values :: c.db.database
  {
    KindOf(d.sensorType).Some? ==>
      forall key :: key in m.connections && Lists(m.connections[key].database, d.sensorType) ==>
        OnlyOld(m.connections[key].db.database.Contents(), KindOf(d.sensorType).value, d.name, since)
  }

  /** One database covers the type: all connections that list it lead there. */
  ghost predicate OneDatabase(m: Manager, sensorType: string)
    reads m`connections
  {
    forall a, b | a in m.connections && b in m.connections && Lists(m.connections[a].database, sensorType)
                  && Lists(m.connections[b].database, sensorType) :: m.connections[a].db.database == m.connections[b].db.database
  }

  /** The database that was written to is the one that is read. */
  lemma WrittenIsRead(m: Manager, sensorType: string, db: Database, tables: Option<Tables>)
    requires OneDatabase(m, sensorType) && RoutesTo(m, sensorType, db) && MayRead(m, sensorType, tables)
    ensures tables == Some(db.Contents())
  {
    var key :| key in m.connections && Lists(m.connections[key].database, sensorType) && m.connections[key].db.database == db;
    assert IsListed(m, sensorType);
    if tables.Some? {
      var other :| other in m.connections && Lists(m.connections[other].database, sensorType)
                   && m.connections[other].db.database.Contents() == tables.value;
    }
  }

  /** The condition under which the alert is decided by the one stored row. */
  predicate Decided(d: Device, c: Column, now: int, clock: int, since: int, faults: ReadFaults) {
    Asks(d, c) && now >= SinceOf(clock, since) && !faults.device && !faults.measurements
  }

  /** Device i of the alert list shares its rows with the one that the entry stored for, and its alert is decided by that one row. */
  ghost predicate Decides(m: Manager, call: Call, addr: string, devices: seq<Device>, i: nat, c: Column, now: int, clock: nat -> int,
                          since: int, faults: nat -> ReadFaults)
    reads m`connections
  {
    && i < |devices| && Target(call, addr).Some? && ShareRows(Target(call, addr).value, devices[i])
    && Decided(devices[i], c, now, clock(i), since, faults(i)) && OneDatabase(m, devices[i].sensorType)
  }

  lemma AlertIff(d: Device, e: Device, c: Column, zb: ZigbeeDevice, t: Tables, now: int, f: Faults, filters: Filters, q: Query)
    requires ShareRows(d, e) && ValidTables(t) && Asks(e, c)
    requires var (t', ok) := Store(t, KindOf(d.sensorType).value, d.name, PayloadOf(d, zb), now, f); ok && q.tables == Some(t')
    requires !q.faults.device && !q.faults.measurements && now >= SinceOf(q.now, filters.since)
    requires OnlyOld(t, KindOf(e.sensorType).value, e.name, SinceOf(q.now, filters.since))
    ensures AlertFor(e, filters, q).Some? <==> Matches(e, filters) && IsMet(e.alert.value, OrZero(Sensed(d, zb, c)))
  {
    AlertFollowsTelemetry(t, d, zb, now, f, e, c, q, filters.since);
  }

  /** The same for what was stored through via, when that held t before. */
  lemma ReportedIff(m: Manager, call: Call, addr: string, zb: ZigbeeDevice, via: Pool, t: Tables, now: int,
                    devices: seq<Device>, i: nat, c: Column, filters: Filters, clock: nat -> int, faults: nat -> ReadFaults,
                    queries: seq<Query>, alerts: seq<AlertDevice>, at: seq<nat>)
    requires Decides(m, call, addr, devices, i, c, now, clock, filters.since, faults) && ValidTables(t)
    requires RoutesTo(m, devices[i].sensorType, via.database)
    requires EntryStore(t, call, addr, zb, now) == (via.database.Contents(), true)
    requires OnlyOld(t, KindOf(devices[i].sensorType).value, devices[i].name, SinceOf(clock(i), filters.since))
    requires |queries| == |devices| && MayMeetAll(m, devices, queries, clock, faults)
    requires IsExact(AlertsOf(devices, filters, queries), alerts, at)
    ensures i in at <==>
            Matches(devices[i], filters) && IsMet(devices[i].alert.value, OrZero(Sensed(Target(call, addr).value, zb, c)))
  {
    assert MayMeet(m, devices[i].sensorType, queries[i], clock(i), faults(i));
    WrittenIsRead(m, devices[i].sensorType, via.database, queries[i].tables);
    AlertIff(Target(call, addr).value, devices[i], c, zb, t, now, call.faults, filters, queries[i]);
    ExactIff(AlertsOf(devices, filters, queries), alerts, at, i);
  }

  /** No row of the device in the window, in the tables t that a database of its type had. */
  ghost predicate WasAlone(t: Tables, d: Device, since: int) {
    KindOf(d.sensorType).Some? ==> OnlyOld(t, KindOf(d.sensorType).value, d.name, since)
  }

  /** One entry that stores for a device: t is what its database held before. */
  method StoreEntry(handler: TelemetryHandler, addr: string, zb: ZigbeeDevice, call: Call)
    returns (stored: bool, ghost now: int, ghost via: Pool?, ghost t: Tables)
    requires Ready(handler.dbManager)
    modifies set p: Pool | p in handler.dbManager.pools :: p.database
    ensures Steady(handler.dbManager)
    ensures stored && Target(call, addr).Some? ==>
              && via != null && RoutesTo(handler.dbManager, Target(call, addr).value.sensorType, via.database)
              && ValidTables(t) && EntryStore(t, call, addr, zb, now) == (via.database.Contents(), true)
              && forall d: Device, since | d.sensorType == Target(call, addr).value.sensorType
                                           && old(Alone(handler.dbManager, d, since)) :: WasAlone(t, d, since)
  {
    stored, now, via := handler.ProcessZigbeeDevice(addr, zb, call);
    if stored && Target(call, addr).Some? {
      t := old(via.database.Contents());
    } else {
      t := EMPTY;
    }
  }

  /**
   The whole path of one message entry, and then the alert query.  The entry lists the
   devices of its bridge's namespace, the query those of all namespaces, and namesakes of
   the same type there are decided with it; at says which device each alert reports.
   */
  method TelemetryThenAlerts(handler: TelemetryHandler, service: AlertsService, addr: string, zb: ZigbeeDevice, call: Call,
                             devices: seq<Device>, filters: Filters, start: int, clock: nat -> int, faults: nat -> ReadFaults)
    returns (stored: bool, alerts: seq<AlertDevice>, ghost now: int, ghost queries: seq<Query>, ghost at: seq<nat>)
    requires handler.dbManager == service.dbManager && Ready(handler.dbManager)
    requires forall j: nat :: clock(j) >= start
    modifies set p: Pool | p in handler.dbManager.pools :: p.database
    ensures |queries| == |devices| && MayMeetAll(service.dbManager, devices, queries, clock, faults)
    ensures IsExact(AlertsOf(devices, filters, queries), alerts, at)
    ensures forall i: nat, c: Column
              | stored && Decides(service.dbManager, call, addr, devices, i, c, now, clock, filters.since, faults)
                && old(Alone(handler.dbManager, devices[i], SinceOf(clock(i), filters.since))) ::
              (i in at <==> Matches(devices[i], filters)
                            && IsMet(devices[i].alert.value, OrZero(Sensed(Target(call, addr).value, zb, c))))
  {
    ghost var via: Pool?;
    ghost var t: Tables;
    stored, now, via, t := StoreEntry(handler, addr, zb, call);
    var r: Result<seq<AlertDevice>>;
    r, queries := service.GetTriggeredAlerts(devices, filters, false, start, clock, faults);
    alerts := r.value;
    at := TriggeredIsExact(devices, filters, queries);
    forall i: nat, c: Column
      | stored && Decides(service.dbManager, call, addr, devices, i, c, now, clock, filters.since, faults)
        && old(Alone(handler.dbManager, devices[i], SinceOf(clock(i), filters.since)))
      ensures i in at <==> Matches(devices[i], filters)
                           && IsMet(devices[i].alert.value, OrZero(Sensed(Target(call, addr).value, zb, c)))
    {
      assert WasAlone(t, devices[i], SinceOf(clock(i), filters.since));
      ReportedIff(service.dbManager, call, addr, zb, via, t, now, devices, i, c, filters, clock, faults, queries, alerts, at);
    }
  }
}
