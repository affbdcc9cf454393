/** The four measurement handlers, writing through a connection pool into a database. */
module Handlers {
  import opened Common
  import opened Float64
  import opened Tables
  import opened Queries
  import opened Names

  /** The storage on the database server. */
  class Database {
    var devices: seq<DeviceRow>
    var nextId: nat
    var moisture: seq<Measurement>
    var waterLevel: seq<Measurement>
    var valve: seq<Measurement>
    var room: seq<Measurement>
    var batteries: seq<SideRow>
    var linkQualities: seq<SideRow>

    function Contents(): Tables
      reads this
    {
      Tables(devices, nextId, moisture, waterLevel, valve, room, batteries, linkQualities)
    }

    constructor ()
      ensures Contents() == EMPTY
    {
      devices, nextId := [], 1;
      moisture, waterLevel, valve, room, batteries, linkQualities := [], [], [], [], [], [];
    }
  }

  /** A gorm connection pool; id is its number among all pools this process ever opened. */
  class Pool {
    ghost const id: nat
    const database: Database
    var open: bool

    constructor (ghost id: nat, database: Database)
      ensures this.id == id && this.database == database && open
    {
      this.id, this.database, open := id, database, true;
    }

    method Close()
      modifies `open
      ensures !open
    {
      open := false;
    }
  }

  /** On a closed pool the first statement already fails. */
  function Effective(f: Faults, open: bool): Faults {
    f.(query := f.query || !open)
  }

  /** A text of a new device: empty when the payload has none. */
  method ReadText(payload: Payload, key: string) returns (text: string)
    ensures text == TextOrEmpty(payload, key)
  {
    text := "";
    if key in payload && payload[key].Text? {
      text := SanitizeString(payload[key].text);
    }
  }

  /** A numeric field of a measurement: absent when the payload has no number there. */
  method ReadNumber(payload: Payload, key: string) returns (v: Option<real>)
    ensures v == GetNumber(payload, key)
  {
    v := None;
    if key in payload && payload[key].Number? {
      v := Some(payload[key].number);
    }
  }

  /** The same for an integer column. */
  method ReadInt(payload: Payload, key: string) returns (v: Option<int>)
    ensures v == GetInt(payload, key)
  {
    v := None;
    if key in payload && payload[key].Number? {
      v := Some(ToInt(payload[key].number));
    }
  }

  /** One column of the update branch, and whether it was assigned. */
  method UpdateColumn(stored: string, payload: Payload, key: string) returns (text: string, updated: bool)
    ensures text == UpdatedText(stored, payload, key)
    ensures updated <==> TextDiffers(stored, payload, key)
  {
    text, updated := stored, false;
    if key in payload && payload[key].Text? && payload[key].text != "" && stored != payload[key].text {
      text, updated := SanitizeString(payload[key].text), true;
    }
  }

  method CreateDevice(db: Database, k: Kind, deviceId: string, payload: Payload) returns (id: nat)
    modifies db
    ensures id == old(db.nextId)
    ensures db.Contents() == Created(old(db.Contents()), k, deviceId, payload)
  {
    var name := ReadText(payload, "Name");
    var shortAddr := ReadText(payload, "databaseiotgorm.Device");
    var ieeeAddr := ReadText(payload, "IEEEAddr");
    id := db.nextId;
    db.devices := db.devices + [DeviceRow(id, deviceId, KindName(k), name, shortAddr, ieeeAddr)];
    db.nextId := id + 1;
  }

  /** The update branch; whether the save worked is not looked at. */
  method UpdateDevice(db: Database, device: DeviceRow, payload: Payload, f: Faults)
    modifies db
    ensures db.Contents() == Updated(old(db.Contents()), device, payload, f)
  {
    var name, nameUpdated := UpdateColumn(device.name, payload, "Name");
    var shortAddr, shortAddrUpdated := UpdateColumn(device.shortAddr, payload, "databaseiotgorm.Device");
    var ieeeAddr, ieeeAddrUpdated := UpdateColumn(device.ieeeAddr, payload, "IEEEAddr");
    if nameUpdated || shortAddrUpdated || ieeeAddrUpdated {
      if !f.save {
        db.devices := SaveDevice(db.devices, device.(name := name, shortAddr := shortAddr, ieeeAddr := ieeeAddr));
      }
    }
  }

  /** The find-or-create block at the head of every handler. */
  method FindOrCreateDevice(pool: Pool, k: Kind, deviceId: string, payload: Payload, f: Faults) returns (id: Option<nat>)
    modifies pool.database
    ensures pool.database.Contents()
         == FindOrCreate(old(pool.database.Contents()), k, deviceId, payload, Effective(f, pool.open)).0
    ensures id == FindOrCreate(old(pool.database.Contents()), k, deviceId, payload, Effective(f, pool.open)).1
  {
    var db := pool.database;
    if !pool.open || f.query {
      return None;
    }
    var found := IndexOf(db.devices, deviceId);
    if found.None? {
      if f.createDevice {
        return None;
      }
      var newId := CreateDevice(db, k, deviceId, payload);
      id := Some(newId);
    } else {
      var device := db.devices[found.value];
      UpdateDevice(db, device, payload, f);
      id := Some(device.id);
    }
  }

  /** The battery block of a handler. */
  method StoreBattery(db: Database, id: nat, payload: Payload, now: int, f: Faults)
    modifies db
    ensures db.Contents() == old(db.Contents()).(
              batteries := AppendSide(old(db.batteries), now, id, if f.battery then None else GetInt(payload, "BatteryPercentage")))
  {
    var percentage := ReadInt(payload, "BatteryPercentage");
    if percentage.Some? && !f.battery {
      db.batteries := db.batteries + [SideRow(now, id, percentage.value)];
    }
  }

  /** The link-quality block of a handler. */
  method StoreLinkQuality(db: Database, id: nat, payload: Payload, now: int, f: Faults)
    modifies db
    ensures db.Contents() == old(db.Contents()).(
              linkQualities := AppendSide(old(db.linkQualities), now, id, LinkQualityOf(payload, f)))
  {
    var quality := ReadInt(payload, "LinkQuality");
    if quality.Some? && !f.linkQuality {
      db.linkQualities := db.linkQualities + [SideRow(now, id, quality.value)];
    }
  }

  // ---------------------------------------------------------------------- handlers

  class MoistureHandler {
    const db: Pool

    constructor (db: Pool)
      ensures this.db == db
    {
      this.db := db;
    }

    method StoreMeasurement(deviceId: string, payload: Payload, now: int, f: Faults) returns (ok: bool)
      modifies db.database
      ensures (db.database.Contents(), ok)
           == Store(old(db.database.Contents()), Moisture, deviceId, payload, now, Effective(f, db.open))
    {
      var id := FindOrCreateDevice(db, Moisture, deviceId, payload, f);
      if id.None? {
        return false;
      }
      var temperature := ReadNumber(payload, "Temperature");
      var humidity := ReadNumber(payload, "Humidity");
      var endpoint := ReadInt(payload, "Endpoint");
      if f.measurement {
        return false;
      }
      db.database.moisture := db.database.moisture + [Measurement(now, id.value, MoistureReading(temperature, humidity, endpoint))];
      StoreBattery(db.database, id.value, payload, now, f);
      StoreLinkQuality(db.database, id.value, payload, now, f);
      ok := true;
    }

    method GetLatestMeasurement(deviceId: string, f: ReadFaults) returns (r: Result<Option<Loaded>>)
      ensures if db.open then LoadedLatest(db.database.Contents(), Moisture, deviceId, f, r) else r == Failure
    {
      r := LoadLatest(db.database, Moisture, deviceId, EffectiveRead(f, db.open));
    }

    method GetMeasurementsByTimeRange(deviceId: string, start: int, end: int, f: ReadFaults)
      returns (r: Result<seq<Loaded>>)
      ensures if db.open then LoadedRange(db.database.Contents(), Moisture, deviceId, start, end, f, r) else r == Failure
    {
      r := LoadRange(db.database, Moisture, deviceId, start, end, EffectiveRead(f, db.open));
    }

    method DeleteOldMeasurements(now: int, olderThan: int, fails: bool) returns (r: Result<nat>)
      modifies db.database
      ensures fails || !db.open ==> r == Failure && db.database.Contents() == old(db.database.Contents())
      ensures !fails && db.open ==> r == Success(|Deleted(old(db.database.moisture), now - olderThan)|)
                                    && db.database.Contents()
                                    == old(db.database.Contents()).(moisture := Keep(old(db.database.moisture), now - olderThan))
    {
      var cutoff := now - olderThan;
      if fails || !db.open {
        return Failure;
      }
      var before := |db.database.moisture|;
      DeletionConserves(db.database.moisture, cutoff);
      db.database.moisture := Keep(db.database.moisture, cutoff);
      r := Success(before - |db.database.moisture|);
    }
  }

  class WaterLevelHandler {
    const db: Pool

    constructor (db: Pool)
      ensures this.db == db
    {
      this.db := db;
    }

    method StoreMeasurement(deviceId: string, payload: Payload, now: int, f: Faults) returns (ok: bool)
      modifies db.database
      ensures (db.database.Contents(), ok)
           == Store(old(db.database.Contents()), WaterLevel, deviceId, payload, now, Effective(f, db.open))
    {
      var id := FindOrCreateDevice(db, WaterLevel, deviceId, payload, f);
      if id.None? {
        return false;
      }
      var level := ReadInt(payload, "WaterLevel");
      var endpoint := ReadInt(payload, "Endpoint");
      if f.measurement {
        return false;
      }
      db.database.waterLevel := db.database.waterLevel + [Measurement(now, id.value, WaterLevelReading(level, endpoint))];
      StoreBattery(db.database, id.value, payload, now, f);
      StoreLinkQuality(db.database, id.value, payload, now, f);
      ok := true;
    }
  }

  class ValveHandler {
    const db: Pool

    constructor (db: Pool)
      ensures this.db == db
    {
      this.db := db;
    }

    method StoreMeasurement(deviceId: string, payload: Payload, now: int, f: Faults) returns (ok: bool)
      modifies db.database
      ensures (db.database.Contents(), ok)
           == Store(old(db.database.Contents()), Valve, deviceId, payload, now, Effective(f, db.open))
    {
      var id := FindOrCreateDevice(db, Valve, deviceId, payload, f);
      if id.None? {
        return false;
      }
      var power := ReadInt(payload, "Power");
      var lastValveOpenDuration := ReadInt(payload, "LastValveOpenDuration");
      var irrigationStartTime := ReadInt(payload, "IrrigationStartTime");
      var irrigationEndTime := ReadInt(payload, "IrrigationEndTime");
      var dailyIrrigationVolume := ReadInt(payload, "DailyIrrigationVolume");
      var endpoint := ReadInt(payload, "Endpoint");
      if f.measurement {
        return false;
      }
      db.database.valve := db.database.valve + [Measurement(now, id.value,
        ValveReading(power, lastValveOpenDuration, irrigationStartTime, irrigationEndTime, dailyIrrigationVolume, endpoint))];
      StoreBattery(db.database, id.value, payload, now, f);
      StoreLinkQuality(db.database, id.value, payload, now, f);
      ok := true;
    }
  }

  class RoomHandler {
    const db: Pool

    constructor (db: Pool)
      ensures this.db == db
    {
      this.db := db;
    }

    method StoreMeasurement(deviceId: string, payload: Payload, now: int, f: Faults) returns (ok: bool)
      modifies db.database
      ensures (db.database.Contents(), ok)
           == Store(old(db.database.Contents()), Room, deviceId, payload, now, Effective(f, db.open))
    {
      var id := FindOrCreateDevice(db, Room, deviceId, payload, f);
      if id.None? {
        return false;
      }
      var temperature := ReadNumber(payload, "Temperature");
      var humidity := ReadNumber(payload, "Humidity");
      var endpoint := ReadInt(payload, "Endpoint");
      if f.measurement {
        return false;
      }
      db.database.room := db.database.room + [Measurement(now, id.value, RoomReading(temperature, humidity, endpoint))];
      StoreLinkQuality(db.database, id.value, payload, now, f);
      ok := true;
    }

    method GetLatestMeasurement(deviceId: string, f: ReadFaults) returns (r: Result<Option<Loaded>>)
      ensures if db.open then LoadedLatest(db.database.Contents(), Room, deviceId, f, r) else r == Failure
    {
      r := LoadLatest(db.database, Room, deviceId, EffectiveRead(f, db.open));
    }

    method GetMeasurementsByTimeRange(deviceId: string, start: int, end: int, f: ReadFaults)
      returns (r: Result<seq<Loaded>>)
      ensures if db.open then LoadedRange(db.database.Contents(), Room, deviceId, start, end, f, r) else r == Failure
    {
      r := LoadRange(db.database, Room, deviceId, start, end, EffectiveRead(f, db.open));
    }

    method DeleteOldMeasurements(now: int, olderThan: int, fails: bool) returns (r: Result<nat>)
      modifies db.database
      ensures fails || !db.open ==> r == Failure && db.database.Contents() == old(db.database.Contents())
      ensures !fails && db.open ==> r == Success(|Deleted(old(db.database.room), now - olderThan)|)
                                    && db.database.Contents()
                                    == old(db.database.Contents()).(room := Keep(old(db.database.room), now - olderThan))
    {
      var cutoff := now - olderThan;
      if fails || !db.open {
        return Failure;
      }
      var before := |db.database.room|;
      DeletionConserves(db.database.room, cutoff);
      db.database.room := Keep(db.database.room, cutoff);
      r := Success(before - |db.database.room|);
    }
  }

  // ------------------------------------------------------------------------ reading

  /** Which of the two statements of a read fails. */
  datatype ReadFaults = ReadFaults(device: bool, measurements: bool)

  /** A measurement with the device that the handler assigns to it after loading. */
  datatype Loaded = Loaded(row: Measurement, device: Option<DeviceRow>)

  /** On a closed pool the first statement already fails. */
  function EffectiveRead(f: ReadFaults, open: bool): ReadFaults {
    f.(device := f.device || !open)
  }

  /**
   What the query for the latest row returns: nothing for an unknown device or one
   without rows, else a newest row of the device, together with the device.
   */
  ghost predicate LoadedLatest(t: Tables, k: Kind, deviceId: string, f: ReadFaults, r: Result<Option<Loaded>>) {
    if f.device then r == Failure
    else
      match IndexOf(t.devices, deviceId)
      case None => r == Success(None)
      case Some(i) =>
        if f.measurements then r == Failure
        else
          r.Success? &&
          match r.value
          case None => forall j :: 0 <= j < |Rows(t, k)| ==> Rows(t, k)[j].deviceId != t.devices[i].id
          case Some(m) => exists j: nat :: IsNewest(Rows(t, k), t.devices[i].id, j) && m == Loaded(Rows(t, k)[j], Some(t.devices[i]))
  }

  method LoadLatest(db: Database, k: Kind, deviceId: string, f: ReadFaults) returns (r: Result<Option<Loaded>>)
    ensures LoadedLatest(db.Contents(), k, deviceId, f, r)
  {
    if f.device {
      return Failure;
    }
    var found := IndexOf(db.devices, deviceId);
    if found.None? {
      return Success(None);
    }
    if f.measurements {
      return Failure;
    }
    var device := db.devices[found.value];
    var rows := Rows(db.Contents(), k);
    LatestIsNewest(rows, device.id);
    var first := Latest(rows, device.id);
    if first.None? {
      return Success(None);
    }
    var measurement := Loaded(first.value, None);
    measurement := measurement.(device := Some(device));
    r := Success(Some(measurement));
  }

  /** What a range query returns: nothing for an unknown device, else exactly the range, every row with its device. */
  ghost predicate LoadedRange(t: Tables, k: Kind, deviceId: string, start: int, end: int, f: ReadFaults, r: Result<seq<Loaded>>) {
    if f.device then r == Failure
    else
      match IndexOf(t.devices, deviceId)
      case None => r == Success([])
      case Some(i) =>
        if f.measurements then r == Failure
        else
          var rows := Range(Rows(t, k), t.devices[i].id, start, end);
          && r.Success? && |r.value| == |rows|
          && forall j :: 0 <= j < |rows| ==> r.value[j] == Loaded(rows[j], Some(t.devices[i]))
  }

  method LoadRange(db: Database, k: Kind, deviceId: string, start: int, end: int, f: ReadFaults)
    returns (r: Result<seq<Loaded>>)
    ensures LoadedRange(db.Contents(), k, deviceId, start, end, f, r)
  {
    if f.device {
      return Failure;
    }
    var found := IndexOf(db.devices, deviceId);
    if found.None? {
      return Success([]);
    }
    if f.measurements {
      return Failure;
    }
    var device := db.devices[found.value];
    var rows := Range(Rows(db.Contents(), k), device.id, start, end);
    var measurements := new Loaded[|rows|](i requires 0 <= i < |rows| => Loaded(rows[i], None));
    for i := 0 to measurements.Length
      invariant forall j :: 0 <= j < i ==> measurements[j] == Loaded(rows[j], Some(device))
      invariant forall j :: i <= j < measurements.Length ==> measurements[j] == Loaded(rows[j], None)
    {
      measurements[i] := measurements[i].(device := Some(device));
    }
    r := Success(measurements[..]);
  }
}
