/**
 The contents of one sensor database and what storing a measurement does to
 them: the part the four measurement handlers share, on values.  Rows stand in
 primary-key order; only devices carry their key, which the other tables refer to.
 */
module Tables {
  import opened Common
  import opened Float64
  import opened Names

  // --------------------------------------------------------------------- payloads

  /** A dynamically typed payload entry. */
  datatype Value = Text(text: string) | Number(number: real) | Flag(flag: bool)

  type Payload = map<string, Value>

  /** payload[key].(string) */
  function GetText(p: Payload, key: string): Option<string> {
    if key in p && p[key].Text? then Some(p[key].text) else None
  }

  /** payload[key].(float64) */
  function GetNumber(p: Payload, key: string): Option<real> {
    if key in p && p[key].Number? then Some(p[key].number) else None
  }

  /** payload[key].(float64) converted to an integer column */
  function GetInt(p: Payload, key: string): Option<int> {
    match GetNumber(p, key)
    case None => None
    case Some(x) => Some(ToInt(x))
  }

  // ------------------------------------------------------------------------- rows

  datatype Kind = Moisture | WaterLevel | Valve | Room

  function KindName(k: Kind): string {
    match k
    case Moisture => "moisture"
    case WaterLevel => "water_level"
    case Valve => "valve"
    case Room => "room"
  }

  function KindOf(sensorType: string): Option<Kind> {
    if sensorType == "moisture" then Some(Moisture)
    else if sensorType == "water_level" then Some(WaterLevel)
    else if sensorType == "valve" then Some(Valve)
    else if sensorType == "room" then Some(Room)
    else None
  }

  datatype DeviceRow = DeviceRow(id: nat, deviceId: string, sensorType: string,
                                 name: string, shortAddr: string, ieeeAddr: string)

  datatype Reading =
    | MoistureReading(temperature: Option<real>, humidity: Option<real>, endpoint: Option<int>)
    | WaterLevelReading(level: Option<int>, endpoint: Option<int>)
    | ValveReading(power: Option<int>, lastValveOpenDuration: Option<int>, irrigationStartTime: Option<int>,
                   irrigationEndTime: Option<int>, dailyIrrigationVolume: Option<int>, endpoint: Option<int>)
    | RoomReading(temperature: Option<real>, humidity: Option<real>, endpoint: Option<int>)

  datatype Measurement = Measurement(timestamp: int, deviceId: nat, reading: Reading)

  /** A battery or link-quality row. */
  datatype SideRow = SideRow(timestamp: int, deviceId: nat, value: int)

  datatype Tables = Tables(devices: seq<DeviceRow>, nextId: nat,
                           moisture: seq<Measurement>, waterLevel: seq<Measurement>,
                           valve: seq<Measurement>, room: seq<Measurement>,
                           batteries: seq<SideRow>, linkQualities: seq<SideRow>)

  const EMPTY: Tables := Tables([], 1, [], [], [], [], [], [])

  function Rows(t: Tables, k: Kind): seq<Measurement> {
    match k
    case Moisture => t.moisture
    case WaterLevel => t.waterLevel
    case Valve => t.valve
    case Room => t.room
  }

  function WithRows(t: Tables, k: Kind, rows: seq<Measurement>): Tables {
    match k
    case Moisture => t.(moisture := rows)
    case WaterLevel => t.(waterLevel := rows)
    case Valve => t.(valve := rows)
    case Room => t.(room := rows)
  }

  // ------------------------------------------------------------------------ store

  /** Which of the statements of one store the database refuses. */
  datatype Faults = Faults(query: bool, createDevice: bool, save: bool,
                           measurement: bool, battery: bool, linkQuality: bool)

  /** WHERE device_id = ? ... LIMIT 1, in primary-key order */
  function IndexOf(devices: seq<DeviceRow>, deviceId: string): (r: Option<nat>)
    ensures r.Some? ==> r.value < |devices| && devices[r.value].deviceId == deviceId
                        && forall j :: 0 <= j < r.value ==> devices[j].deviceId != deviceId
    ensures r.None? ==> forall j :: 0 <= j < |devices| ==> devices[j].deviceId != deviceId
  {
    if devices == [] then None
    else if devices[0].deviceId == deviceId then Some(0)
    else
      match IndexOf(devices[1..], deviceId)
      case None => None
      case Some(i) => Some(i + 1)
  }

  /** The device row, if there is one. */
  function Found(t: Tables, deviceId: string): Option<DeviceRow> {
    match IndexOf(t.devices, deviceId)
    case None => None
    case Some(i) => Some(t.devices[i])
  }

  function TextOrEmpty(p: Payload, key: string): string {
    match GetText(p, key)
    case None => ""
    case Some(s) => SanitizeString(s)
  }

  function NewDevice(id: nat, deviceId: string, k: Kind, p: Payload): DeviceRow {
    DeviceRow(id, deviceId, KindName(k), TextOrEmpty(p, "Name"),
              TextOrEmpty(p, "databaseiotgorm.Device"), TextOrEmpty(p, "IEEEAddr"))
  }

  /** One column of the update branch: replaced when the payload has a different, non-empty text. */
  function UpdatedText(stored: string, p: Payload, key: string): string {
    match GetText(p, key)
    case None => stored
    case Some(s) => if s != "" && stored != s then SanitizeString(s) else stored
  }

  predicate TextDiffers(stored: string, p: Payload, key: string) {
    GetText(p, key).Some? && GetText(p, key).value != "" && stored != GetText(p, key).value
  }

  predicate NeedsUpdate(row: DeviceRow, p: Payload) {
    || TextDiffers(row.name, p, "Name")
    || TextDiffers(row.shortAddr, p, "databaseiotgorm.Device")
    || TextDiffers(row.ieeeAddr, p, "IEEEAddr")
  }

  function UpdatedDevice(row: DeviceRow, p: Payload): DeviceRow {
    row.(name := UpdatedText(row.name, p, "Name"),
         shortAddr := UpdatedText(row.shortAddr, p, "databaseiotgorm.Device"),
         ieeeAddr := UpdatedText(row.ieeeAddr, p, "IEEEAddr"))
  }

  /** UPDATE devices SET ... WHERE id = row.id */
  function SaveDevice(devices: seq<DeviceRow>, row: DeviceRow): (r: seq<DeviceRow>)
    ensures |r| == |devices|
    ensures forall i :: 0 <= i < |r| ==> r[i] == if devices[i].id == row.id then row else devices[i]
  {
    seq(|devices|, i requires 0 <= i < |devices| => if devices[i].id == row.id then row else devices[i])
  }

  /** INSERT INTO devices */
  function Created(t: Tables, k: Kind, deviceId: string, p: Payload): Tables {
    t.(devices := t.devices + [NewDevice(t.nextId, deviceId, k, p)], nextId := t.nextId + 1)
  }

  /** The update branch; whether its statement worked is not looked at. */
  function Updated(t: Tables, row: DeviceRow, p: Payload, f: Faults): Tables {
    if NeedsUpdate(row, p) && !f.save then t.(devices := SaveDevice(t.devices, UpdatedDevice(row, p))) else t
  }

  /** The find-or-create step: the new tables and the key that the measurement rows refer to. */
  function FindOrCreate(t: Tables, k: Kind, deviceId: string, p: Payload, f: Faults): (Tables, Option<nat>) {
    if f.query then (t, None)
    else
      match IndexOf(t.devices, deviceId)
      case None =>
        if f.createDevice then (t, None) else (Created(t, k, deviceId, p), Some(t.nextId))
      case Some(i) => (Updated(t, t.devices[i], p, f), Some(t.devices[i].id))
  }

  function ReadingOf(k: Kind, p: Payload): Reading {
    match k
    case Moisture => MoistureReading(GetNumber(p, "Temperature"), GetNumber(p, "Humidity"), GetInt(p, "Endpoint"))
    case WaterLevel => WaterLevelReading(GetInt(p, "WaterLevel"), GetInt(p, "Endpoint"))
    case Valve => ValveReading(GetInt(p, "Power"), GetInt(p, "LastValveOpenDuration"), GetInt(p, "IrrigationStartTime"),
                               GetInt(p, "IrrigationEndTime"), GetInt(p, "DailyIrrigationVolume"), GetInt(p, "Endpoint"))
    case Room => RoomReading(GetNumber(p, "Temperature"), GetNumber(p, "Humidity"), GetInt(p, "Endpoint"))
  }

  /** The battery value to insert, if any; the room handler stores none. */
  function BatteryOf(k: Kind, p: Payload, f: Faults): Option<int> {
    if k.Room? || f.battery then None else GetInt(p, "BatteryPercentage")
  }

  function LinkQualityOf(p: Payload, f: Faults): Option<int> {
    if f.linkQuality then None else GetInt(p, "LinkQuality")
  }

  function AppendSide(rows: seq<SideRow>, now: int, id: nat, v: Option<int>): seq<SideRow> {
    match v
    case None => rows
    case Some(x) => rows + [SideRow(now, id, x)]
  }

  function Insert(t: Tables, k: Kind, id: nat, p: Payload, now: int, f: Faults): Tables {
    WithRows(t, k, Rows(t, k) + [Measurement(now, id, ReadingOf(k, p))]).(
      batteries := AppendSide(t.batteries, now, id, BatteryOf(k, p, f)),
      linkQualities := AppendSide(t.linkQualities, now, id, LinkQualityOf(p, f)))
  }

  /** The whole store: the new tables and whether the handler returned nil. */
  function Store(t: Tables, k: Kind, deviceId: string, p: Payload, now: int, f: Faults): (Tables, bool) {
    var (t', id) := FindOrCreate(t, k, deviceId, p, f);
    if id.None? || f.measurement then (t', false)
    else (Insert(t', k, id.value, p, now, f), true)
  }

  // -------------------------------------------------------- the relational invariant

  ghost predicate KnownId(t: Tables, id: nat) {
    exists i :: 0 <= i < |t.devices| && t.devices[i].id == id
  }

  ghost predicate DistinctKeys(devices: seq<DeviceRow>) {
    forall i, j :: 0 <= i < j < |devices| ==> devices[i].id != devices[j].id
  }

  ghost predicate DistinctDeviceIds(devices: seq<DeviceRow>) {
    forall i, j :: 0 <= i < j < |devices| ==> devices[i].deviceId != devices[j].deviceId
  }

  ghost predicate CleanDevice(d: DeviceRow) {
    IsClean(d.name) && IsClean(d.shortAddr) && IsClean(d.ieeeAddr)
  }

  /** Keys are unique, stored texts clean, and every row of the other tables points to a device. */
  ghost predicate Sound(t: Tables) {
    && DistinctKeys(t.devices)
    && (forall i :: 0 <= i < |t.devices| ==> t.devices[i].id < t.nextId && CleanDevice(t.devices[i]))
    && (forall k: Kind, i :: 0 <= i < |Rows(t, k)| ==> KnownId(t, Rows(t, k)[i].deviceId))
    && (forall i :: 0 <= i < |t.batteries| ==> KnownId(t, t.batteries[i].deviceId))
    && (forall i :: 0 <= i < |t.linkQualities| ==> KnownId(t, t.linkQualities[i].deviceId))
  }

  ghost predicate ValidTables(t: Tables) {
    Sound(t) && DistinctDeviceIds(t.devices)
  }

  lemma TextOrEmptyClean(p: Payload, key: string)
    ensures IsClean(TextOrEmpty(p, key))
  {
    if GetText(p, key).Some? {
      SanitizeStringFixedPoints(GetText(p, key).value);
    }
  }

  lemma UpdatedTextClean(stored: string, p: Payload, key: string)
    requires IsClean(stored)
    ensures IsClean(UpdatedText(stored, p, key))
  {
    if GetText(p, key).Some? {
      SanitizeStringFixedPoints(GetText(p, key).value);
    }
  }

  lemma NewDeviceClean(id: nat, deviceId: string, k: Kind, p: Payload)
    ensures CleanDevice(NewDevice(id, deviceId, k, p))
  {
    TextOrEmptyClean(p, "Name");
    TextOrEmptyClean(p, "databaseiotgorm.Device");
    TextOrEmptyClean(p, "IEEEAddr");
  }

  lemma UpdatedDeviceClean(row: DeviceRow, p: Payload)
    requires CleanDevice(row)
    ensures CleanDevice(UpdatedDevice(row, p))
  {
    UpdatedTextClean(row.name, p, "Name");
    UpdatedTextClean(row.shortAddr, p, "databaseiotgorm.Device");
    UpdatedTextClean(row.ieeeAddr, p, "IEEEAddr");
  }

  /** Replacing devices by rows that keep every known key keeps all references. */
  lemma KeepsReferences(t: Tables, t': Tables)
    requires forall id: nat :: KnownId(t, id) ==> KnownId(t', id)
    requires t' == t.(devices := t'.devices, nextId := t'.nextId)
    requires Sound(t)
    ensures forall k: Kind, i :: 0 <= i < |Rows(t', k)| ==> KnownId(t', Rows(t', k)[i].deviceId)
    ensures forall i :: 0 <= i < |t'.batteries| ==> KnownId(t', t'.batteries[i].deviceId)
    ensures forall i :: 0 <= i < |t'.linkQualities| ==> KnownId(t', t'.linkQualities[i].deviceId)
  {
    forall k: Kind, i | 0 <= i < |Rows(t', k)| ensures KnownId(t', Rows(t', k)[i].deviceId) {
      assert Rows(t', k) == Rows(t, k);
    }
  }

  /** The row is clean, and its key stands for the same device id in the tables. */
  ghost predicate RowHolds(t: Tables, row: DeviceRow) {
    && CleanDevice(row)
    && exists i :: 0 <= i < |t.devices| && t.devices[i].id == row.id && t.devices[i].deviceId == row.deviceId
  }

  /** No device row is lost, and none changes its key or its device id. */
  ghost predicate KeepsDevices(t: Tables, t': Tables) {
    && |t.devices| <= |t'.devices|
    && forall i :: 0 <= i < |t.devices| ==> t'.devices[i].id == t.devices[i].id && t'.devices[i].deviceId == t.devices[i].deviceId
  }

  lemma KeepsKnown(t: Tables, t': Tables)
    requires KeepsDevices(t, t')
    ensures forall id: nat :: KnownId(t, id) ==> KnownId(t', id)
  {
    forall id: nat | KnownId(t, id) ensures KnownId(t', id) {
      var i :| 0 <= i < |t.devices| && t.devices[i].id == id;
      assert t'.devices[i].id == id;
    }
  }

  /** A new row keeps device ids distinct exactly when its own is new. */
  lemma CreatedSound(t: Tables, k: Kind, deviceId: string, p: Payload)
    requires Sound(t)
    ensures var t' := Created(t, k, deviceId, p);
            && Sound(t') && KeepsDevices(t, t') && KnownId(t', t.nextId)
            && (DistinctDeviceIds(t'.devices) <==> DistinctDeviceIds(t.devices) && Found(t, deviceId).None?)
  {
    var t' := Created(t, k, deviceId, p);
    NewDeviceClean(t.nextId, deviceId, k, p);
    var n := |t.devices|;
    assert t'.devices[n].id == t.nextId && t'.devices[n].deviceId == deviceId && t'.devices[..n] == t.devices;
    assert forall i :: 0 <= i < n ==> t'.devices[i] == t.devices[i];
    KeepsKnown(t, t');
    KeepsReferences(t, t');
    if Found(t, deviceId).Some? {
      var i := IndexOf(t.devices, deviceId).value;
      assert t'.devices[i].deviceId == t'.devices[n].deviceId;
    }
  }

  lemma UpdatedSound(t: Tables, row: DeviceRow, p: Payload, f: Faults)
    requires Sound(t) && RowHolds(t, row)
    ensures var t' := Updated(t, row, p, f);
            && Sound(t') && KeepsDevices(t, t') && KnownId(t', row.id)
            && (DistinctDeviceIds(t'.devices) <==> DistinctDeviceIds(t.devices))
  {
    var t' := Updated(t, row, p, f);
    UpdatedDeviceClean(row, p);
    forall i | 0 <= i < |t.devices| ensures t'.devices[i].id == t.devices[i].id && t'.devices[i].deviceId == t.devices[i].deviceId {
      if t.devices[i].id == row.id {
        var at :| 0 <= at < |t.devices| && t.devices[at].id == row.id && t.devices[at].deviceId == row.deviceId;
        assert at == i;
      }
    }
    assert |t'.devices| == |t.devices|;
    assert KnownId(t, row.id);
    KeepsKnown(t, t');
    KeepsReferences(t, t');
  }

  lemma FindOrCreateValid(t: Tables, k: Kind, deviceId: string, p: Payload, f: Faults)
    requires ValidTables(t)
    ensures var (t', id) := FindOrCreate(t, k, deviceId, p, f);
            ValidTables(t') && (id.Some? ==> KnownId(t', id.value))
  {
    var at := IndexOf(t.devices, deviceId);
    if at.None? {
      CreatedSound(t, k, deviceId, p);
    } else {
      assert RowHolds(t, t.devices[at.value]);
      UpdatedSound(t, t.devices[at.value], p, f);
    }
  }

  /** An insert touches the tables of one kind and the two side tables. */
  lemma InsertShape(t: Tables, k: Kind, id: nat, p: Payload, now: int, f: Faults)
    ensures var t' := Insert(t, k, id, p, now, f);
            && t'.devices == t.devices && t'.nextId == t.nextId
            && Rows(t', k) == Rows(t, k) + [Measurement(now, id, ReadingOf(k, p))]
            && (forall k' :: k' != k ==> Rows(t', k') == Rows(t, k'))
            && t'.batteries == AppendSide(t.batteries, now, id, BatteryOf(k, p, f))
            && t'.linkQualities == AppendSide(t.linkQualities, now, id, LinkQualityOf(p, f))
  {
  }

  lemma InsertSound(t: Tables, k: Kind, id: nat, p: Payload, now: int, f: Faults)
    requires Sound(t) && KnownId(t, id)
    ensures Sound(Insert(t, k, id, p, now, f))
  {
    var t' := Insert(t, k, id, p, now, f);
    InsertShape(t, k, id, p, now, f);
    assert forall x: nat :: KnownId(t, x) ==> KnownId(t', x);
    forall k': Kind, i | 0 <= i < |Rows(t', k')| ensures KnownId(t', Rows(t', k')[i].deviceId) {
      if i < |Rows(t, k')| {
        assert Rows(t', k')[i] == Rows(t, k')[i];
      }
    }
  }

  lemma InsertValid(t: Tables, k: Kind, id: nat, p: Payload, now: int, f: Faults)
    requires ValidTables(t) && KnownId(t, id)
    ensures ValidTables(Insert(t, k, id, p, now, f))
  {
    InsertSound(t, k, id, p, now, f);
    InsertShape(t, k, id, p, now, f);
  }

  /** Storing keeps the invariant, whatever fails. */
  lemma StoreValid(t: Tables, k: Kind, deviceId: string, p: Payload, now: int, f: Faults)
    requires ValidTables(t)
    ensures ValidTables(Store(t, k, deviceId, p, now, f).0)
  {
    FindOrCreateValid(t, k, deviceId, p, f);
    var (t', id) := FindOrCreate(t, k, deviceId, p, f);
    if id.Some? && !f.measurement {
      InsertValid(t', k, id.value, p, now, f);
    }
  }

  // ------------------------------------------------------------------ whole histories

  /** One call of a handler: what it was given and what failed under it. */
  datatype Job = Job(kind: Kind, deviceId: string, payload: Payload, now: int, faults: Faults)

  function After(t: Tables, j: Job): Tables {
    Store(t, j.kind, j.deviceId, j.payload, j.now, j.faults).0
  }

  function Run(t: Tables, jobs: seq<Job>): Tables
    decreases |jobs|
  {
    if jobs == [] then t
    else Run(After(t, jobs[0]), jobs[1..])
  }

  lemma {:induction false} RunValid(t: Tables, jobs: seq<Job>)
    requires ValidTables(t)
    ensures ValidTables(Run(t, jobs))
    decreases |jobs|
  {
    if jobs != [] {
      var j := jobs[0];
      StoreValid(t, j.kind, j.deviceId, j.payload, j.now, j.faults);
      RunValid(After(t, j), jobs[1..]);
    }
  }

  /**
   Every sequence of stores from an empty database, failing ones included, leaves
   device ids unique, every measurement, battery and link-quality row pointing to
   a device, and no control character in a stored name or address.
   */
  lemma EveryHistoryIsValid(jobs: seq<Job>)
    ensures ValidTables(Run(EMPTY, jobs))
  {
    RunValid(EMPTY, jobs);
  }

  // ----------------------------------------------------- one device's share of the tables

  /** Everything stored about one device, up to its key and the timestamps. */
  datatype DeviceView = DeviceView(sensorType: string, name: string, shortAddr: string, ieeeAddr: string,
                                   moisture: seq<Reading>, waterLevel: seq<Reading>,
                                   valve: seq<Reading>, room: seq<Reading>,
                                   batteries: seq<int>, linkQualities: seq<int>)

  function Readings(rows: seq<Measurement>, id: nat): seq<Reading> {
    if rows == [] then []
    else Readings(rows[..|rows| - 1], id)
         + if rows[|rows| - 1].deviceId == id then [rows[|rows| - 1].reading] else []
  }

  function SideValues(rows: seq<SideRow>, id: nat): seq<int> {
    if rows == [] then []
    else SideValues(rows[..|rows| - 1], id)
         + if rows[|rows| - 1].deviceId == id then [rows[|rows| - 1].value] else []
  }

  function ShareOf(t: Tables, row: DeviceRow): DeviceView {
    DeviceView(row.sensorType, row.name, row.shortAddr, row.ieeeAddr,
               Readings(t.moisture, row.id), Readings(t.waterLevel, row.id),
               Readings(t.valve, row.id), Readings(t.room, row.id),
               SideValues(t.batteries, row.id), SideValues(t.linkQualities, row.id))
  }

  function ViewOf(t: Tables, deviceId: string): Option<DeviceView> {
    match IndexOf(t.devices, deviceId)
    case None => None
    case Some(i) => Some(ShareOf(t, t.devices[i]))
  }

  /** The device's share before its measurement is inserted. */
  function DeviceStep(v: Option<DeviceView>, k: Kind, p: Payload, f: Faults): Option<DeviceView> {
    match v
    case None =>
      if f.query || f.createDevice then None
      else Some(DeviceView(KindName(k), TextOrEmpty(p, "Name"), TextOrEmpty(p, "databaseiotgorm.Device"),
                           TextOrEmpty(p, "IEEEAddr"), [], [], [], [], [], []))
    case Some(d) =>
      if f.query || f.save then v
      else Some(d.(name := UpdatedText(d.name, p, "Name"),
                   shortAddr := UpdatedText(d.shortAddr, p, "databaseiotgorm.Device"),
                   ieeeAddr := UpdatedText(d.ieeeAddr, p, "IEEEAddr")))
  }

  function WithReading(d: DeviceView, k: Kind, r: Reading): DeviceView {
    match k
    case Moisture => d.(moisture := d.moisture + [r])
    case WaterLevel => d.(waterLevel := d.waterLevel + [r])
    case Valve => d.(valve := d.valve + [r])
    case Room => d.(room := d.room + [r])
  }

  /** A share with one more reading and what the store adds to the side tables. */
  function Extended(v: DeviceView, k: Kind, p: Payload, f: Faults): DeviceView {
    WithReading(v, k, ReadingOf(k, p)).(
      batteries := v.batteries + OptionSeq(BatteryOf(k, p, f)),
      linkQualities := v.linkQualities + OptionSeq(LinkQualityOf(p, f)))
  }

  /** What one store contributes to its device's share: a function of that share and of the call alone. */
  function Contribution(v: Option<DeviceView>, k: Kind, p: Payload, f: Faults): Option<DeviceView> {
    var base := DeviceStep(v, k, p, f);
    if f.query || base.None? || f.measurement then base else Some(Extended(base.value, k, p, f))
  }

  lemma {:induction false} NoReadings(rows: seq<Measurement>, id: nat)
    requires forall i :: 0 <= i < |rows| ==> rows[i].deviceId != id
    ensures Readings(rows, id) == []
  {
    if rows != [] {
      NoReadings(rows[..|rows| - 1], id);
    }
  }

  lemma {:induction false} NoSideValues(rows: seq<SideRow>, id: nat)
    requires forall i :: 0 <= i < |rows| ==> rows[i].deviceId != id
    ensures SideValues(rows, id) == []
  {
    if rows != [] {
      NoSideValues(rows[..|rows| - 1], id);
    }
  }

  lemma ReadingsAppend(rows: seq<Measurement>, m: Measurement, id: nat)
    ensures Readings(rows + [m], id) == Readings(rows, id) + if m.deviceId == id then [m.reading] else []
  {
    assert (rows + [m])[..|rows|] == rows;
  }

  lemma SideValuesAppend(rows: seq<SideRow>, now: int, key: nat, v: Option<int>, id: nat)
    ensures SideValues(AppendSide(rows, now, key, v), id)
         == SideValues(rows, id) + if key == id then OptionSeq(v) else []
  {
    if v.Some? {
      var r := SideRow(now, key, v.value);
      assert (rows + [r])[..|rows|] == rows;
    }
  }

  /** A key that no device has yet owns nothing. */
  lemma FreshShare(t: Tables, row: DeviceRow)
    requires ValidTables(t) && row.id == t.nextId
    ensures ShareOf(t, row) == DeviceView(row.sensorType, row.name, row.shortAddr, row.ieeeAddr, [], [], [], [], [], [])
  {
    forall k | true ensures Readings(Rows(t, k), t.nextId) == [] {
      NoReadings(Rows(t, k), t.nextId);
    }
    assert Readings(Rows(t, Moisture), t.nextId) == [] && Readings(Rows(t, WaterLevel), t.nextId) == [];
    assert Readings(Rows(t, Valve), t.nextId) == [] && Readings(Rows(t, Room), t.nextId) == [];
    NoSideValues(t.batteries, t.nextId);
    NoSideValues(t.linkQualities, t.nextId);
  }

  lemma FirstIndex(devices: seq<DeviceRow>, d: string, i: nat)
    requires i < |devices| && devices[i].deviceId == d
    requires forall j :: 0 <= j < i ==> devices[j].deviceId != d
    ensures IndexOf(devices, d) == Some(i)
  {
  }

  lemma CreatedKeepsFound(t: Tables, k: Kind, deviceId: string, p: Payload, d: string)
    requires d != deviceId
    ensures Found(Created(t, k, deviceId, p), d) == Found(t, d)
  {
    var devices := Created(t, k, deviceId, p).devices;
    assert devices[..|t.devices|] == t.devices;
    if IndexOf(t.devices, d).Some? {
      FirstIndex(devices, d, IndexOf(t.devices, d).value);
    }
  }

  lemma UpdatedKeepsFound(t: Tables, i: nat, p: Payload, f: Faults, d: string)
    requires DistinctKeys(t.devices) && i < |t.devices| && d != t.devices[i].deviceId
    ensures Found(Updated(t, t.devices[i], p, f), d) == Found(t, d)
  {
    var devices := Updated(t, t.devices[i], p, f).devices;
    assert |devices| == |t.devices|;
    assert forall j :: 0 <= j < |devices| && j != i ==> devices[j] == t.devices[j];
    assert devices[i].deviceId == t.devices[i].deviceId;
    if IndexOf(t.devices, d).Some? {
      FirstIndex(devices, d, IndexOf(t.devices, d).value);
    }
  }

  lemma CreatedViews(t: Tables, k: Kind, deviceId: string, p: Payload, d: string)
    requires ValidTables(t) && IndexOf(t.devices, deviceId).None?
    ensures var row := NewDevice(t.nextId, deviceId, k, p);
            var t' := t.(devices := t.devices + [row], nextId := t.nextId + 1);
            && IndexOf(t'.devices, deviceId) == Some(|t.devices|)
            && ViewOf(t', deviceId) == Some(DeviceView(row.sensorType, row.name, row.shortAddr, row.ieeeAddr, [], [], [], [], [], []))
            && (d != deviceId ==> ViewOf(t', d) == ViewOf(t, d))
  {
    var row := NewDevice(t.nextId, deviceId, k, p);
    var t' := t.(devices := t.devices + [row], nextId := t.nextId + 1);
    FirstIndex(t'.devices, deviceId, |t.devices|);
    FreshShare(t, row);
    assert ShareOf(t', row) == ShareOf(t, row);
    if d != deviceId && IndexOf(t.devices, d).Some? {
      var i := IndexOf(t.devices, d).value;
      FirstIndex(t'.devices, d, i);
      assert ShareOf(t', t.devices[i]) == ShareOf(t, t.devices[i]);
    }
  }

  lemma UpdatedViews(t: Tables, deviceId: string, p: Payload, d: string)
    requires ValidTables(t) && IndexOf(t.devices, deviceId).Some?
    ensures var i := IndexOf(t.devices, deviceId).value;
            var row := UpdatedDevice(t.devices[i], p);
            var t' := t.(devices := SaveDevice(t.devices, row));
            && IndexOf(t'.devices, deviceId) == Some(i) && t'.devices[i] == row
            && ViewOf(t', deviceId) == Some(ShareOf(t, row))
            && (d != deviceId ==> ViewOf(t', d) == ViewOf(t, d))
  {
    var at := IndexOf(t.devices, deviceId).value;
    var row := UpdatedDevice(t.devices[at], p);
    var t' := t.(devices := SaveDevice(t.devices, row));
    FirstIndex(t'.devices, deviceId, at);
    assert ShareOf(t', row) == ShareOf(t, row);
    if d != deviceId && IndexOf(t.devices, d).Some? {
      var i := IndexOf(t.devices, d).value;
      assert t'.devices[i] == t.devices[i];
      FirstIndex(t'.devices, d, i);
      assert ShareOf(t', t.devices[i]) == ShareOf(t, t.devices[i]);
    }
  }

  /** Inserts do not touch the devices. */
  lemma StoreDevices(t: Tables, k: Kind, deviceId: string, p: Payload, now: int, f: Faults, d: string)
    ensures Found(Store(t, k, deviceId, p, now, f).0, d) == Found(FindOrCreate(t, k, deviceId, p, f).0, d)
  {
    var (t1, id) := FindOrCreate(t, k, deviceId, p, f);
    if id.Some? {
      InsertShape(t1, k, id.value, p, now, f);
    }
  }

  /** A store leaves the row of every other device as it is. */
  lemma StoreKeepsFound(t: Tables, k: Kind, deviceId: string, p: Payload, now: int, f: Faults, d: string)
    requires ValidTables(t) && d != deviceId
    ensures Found(Store(t, k, deviceId, p, now, f).0, d) == Found(t, d)
  {
    var at := IndexOf(t.devices, deviceId);
    if at.None? {
      CreatedKeepsFound(t, k, deviceId, p, d);
    } else {
      UpdatedKeepsFound(t, at.value, p, f, d);
    }
    StoreDevices(t, k, deviceId, p, now, f, d);
  }

  /** The row is that of before, up to its texts, or a new one. */
  predicate SameKey(before: Option<DeviceRow>, after: Option<DeviceRow>, nextId: nat) {
    && (before.Some? ==> after.Some? && after.value.id == before.value.id)
    && (before.None? && after.Some? ==> after.value.id == nextId)
  }

  lemma FindOrCreateKeepsKey(t: Tables, k: Kind, deviceId: string, p: Payload, f: Faults)
    requires ValidTables(t)
    ensures SameKey(Found(t, deviceId), Found(FindOrCreate(t, k, deviceId, p, f).0, deviceId), t.nextId)
  {
    if IndexOf(t.devices, deviceId).None? {
      CreatedViews(t, k, deviceId, p, deviceId);
    } else {
      UpdatedViews(t, deviceId, p, deviceId);
    }
  }

  /** No device row loses its key. */
  lemma StoreKeepsKey(t: Tables, k: Kind, deviceId: string, p: Payload, now: int, f: Faults, d: string)
    requires ValidTables(t)
    ensures SameKey(Found(t, d), Found(Store(t, k, deviceId, p, now, f).0, d), t.nextId)
  {
    if d == deviceId {
      FindOrCreateKeepsKey(t, k, deviceId, p, f);
      StoreDevices(t, k, deviceId, p, now, f, d);
    } else {
      StoreKeepsFound(t, k, deviceId, p, now, f, d);
    }
  }

  lemma UnchangedWithoutUpdate(row: DeviceRow, p: Payload)
    requires !NeedsUpdate(row, p)
    ensures UpdatedDevice(row, p) == row
  {
  }

  lemma FindOrCreateViews(t: Tables, k: Kind, deviceId: string, p: Payload, f: Faults, d: string)
    requires ValidTables(t)
    ensures var (t', id) := FindOrCreate(t, k, deviceId, p, f);
            && ViewOf(t', d) == (if d == deviceId then DeviceStep(ViewOf(t, d), k, p, f) else ViewOf(t, d))
            && (id.Some? <==> !f.query && ViewOf(t', deviceId).Some?)
            && (id.Some? ==> var i := IndexOf(t'.devices, deviceId); i.Some? && t'.devices[i.value].id == id.value)
  {
    var at := IndexOf(t.devices, deviceId);
    if at.None? {
      CreatedViews(t, k, deviceId, p, d);
    } else {
      UpdatedViews(t, deviceId, p, d);
      if !NeedsUpdate(t.devices[at.value], p) {
        UnchangedWithoutUpdate(t.devices[at.value], p);
      }
    }
  }

  lemma InsertShare(t: Tables, k: Kind, id: nat, p: Payload, now: int, f: Faults, row: DeviceRow)
    ensures ShareOf(Insert(t, k, id, p, now, f), row)
         == if row.id == id then Extended(ShareOf(t, row), k, p, f) else ShareOf(t, row)
  {
    ReadingsAppend(Rows(t, k), Measurement(now, id, ReadingOf(k, p)), row.id);
    SideValuesAppend(t.batteries, now, id, BatteryOf(k, p, f), row.id);
    SideValuesAppend(t.linkQualities, now, id, LinkQualityOf(p, f), row.id);
  }

  /** Where only the share of one row becomes v, the views follow. */
  lemma ViewsFollow(t: Tables, t': Tables, i: nat, v: DeviceView, d: string, at: Option<nat>)
    requires t'.devices == t.devices && DistinctKeys(t.devices) && at == IndexOf(t.devices, d)
    requires i < |t.devices| && IndexOf(t.devices, t.devices[i].deviceId) == Some(i)
    requires at.Some? ==> var row := t.devices[at.value];
                          ShareOf(t', row) == if row.id == t.devices[i].id then v else ShareOf(t, row)
    ensures ViewOf(t', d) == if d == t.devices[i].deviceId then Some(v) else ViewOf(t, d)
  {
  }

  lemma InsertedViews(t: Tables, t': Tables, k: Kind, i: nat, p: Payload, now: int, f: Faults, d: string)
    requires DistinctKeys(t.devices) && i < |t.devices| && IndexOf(t.devices, t.devices[i].deviceId) == Some(i)
    requires t' == Insert(t, k, t.devices[i].id, p, now, f)
    ensures ViewOf(t', d) == if d == t.devices[i].deviceId then Some(Extended(ShareOf(t, t.devices[i]), k, p, f)) else ViewOf(t, d)
  {
    var id, at := t.devices[i].id, IndexOf(t.devices, d);
    InsertShape(t, k, id, p, now, f);
    InsertShare(t, k, id, p, now, f, t.devices[i]);
    var v := ShareOf(t', t.devices[i]);
    if at.Some? {
      InsertShare(t, k, id, p, now, f, t.devices[at.value]);
      assert t.devices[at.value].id == id ==> at.value == i;
    }
    ViewsFollow(t, t', i, v, d, at);
  }

  /** The rest of a store, after the device step has left the tables t and the share v. */
  lemma RestViews(t: Tables, t': Tables, k: Kind, deviceId: string, id: nat, v: DeviceView, p: Payload, now: int, f: Faults, d: string)
    requires DistinctKeys(t.devices) && ViewOf(t, deviceId) == Some(v)
    requires t.devices[IndexOf(t.devices, deviceId).value].id == id
    requires t' == Insert(t, k, id, p, now, f)
    ensures ViewOf(t', d) == if d == deviceId then Some(Extended(v, k, p, f)) else ViewOf(t, d)
  {
    InsertedViews(t, t', k, IndexOf(t.devices, deviceId).value, p, now, f, d);
  }

  /** A store changes its own device's share by its contribution and leaves every other device's share alone. */
  lemma StoreViews(t: Tables, k: Kind, deviceId: string, p: Payload, now: int, f: Faults, d: string)
    requires ValidTables(t)
    ensures var t' := Store(t, k, deviceId, p, now, f).0;
            ViewOf(t', d) == if d == deviceId then Contribution(ViewOf(t, d), k, p, f) else ViewOf(t, d)
  {
    var (t1, id) := FindOrCreate(t, k, deviceId, p, f);
    FindOrCreateViews(t, k, deviceId, p, f, d);
    FindOrCreateViews(t, k, deviceId, p, f, deviceId);
    FindOrCreateValid(t, k, deviceId, p, f);
    if id.Some? && !f.measurement {
      RestViews(t1, Store(t, k, deviceId, p, now, f).0, k, deviceId, id.value, ViewOf(t1, deviceId).value, p, now, f, d);
    }
  }

  lemma ContributionName(v: Option<DeviceView>, k: Kind, p: Payload, f: Faults)
    ensures Contribution(v, k, p, f).Some? <==> DeviceStep(v, k, p, f).Some?
    ensures Contribution(v, k, p, f).Some? ==> Contribution(v, k, p, f).value.name == DeviceStep(v, k, p, f).value.name
  {
  }

  // ------------------------------------------------------------- what one store promises

  /** rows' is rows with at most one more row behind, which carries this time and key. */
  ghost predicate AtMostOneMore(rows: seq<SideRow>, rows': seq<SideRow>, now: int, id: nat) {
    || rows' == rows
    || (|rows'| == |rows| + 1 && rows'[..|rows|] == rows
        && rows'[|rows|].timestamp == now && rows'[|rows|].deviceId == id)
  }

  /**
   A store succeeds exactly when the lookup, the creation if one is needed and the
   measurement insert do.  It then adds one measurement row of the handler's kind
   and at most one row to each side table, all with the same time and with the key
   of the device's row, behind everything that was there.  A failed one adds no row
   outside the devices table.
   */
  lemma StoreAddsOneMeasurement(t: Tables, k: Kind, deviceId: string, p: Payload, now: int, f: Faults)
    requires ValidTables(t)
    ensures var (t', ok) := Store(t, k, deviceId, p, now, f); var i := IndexOf(t'.devices, deviceId);
            && (ok <==> !f.query && !f.measurement && (f.createDevice ==> IndexOf(t.devices, deviceId).Some?))
            && (forall k' :: k' != k || !ok ==> Rows(t', k') == Rows(t, k'))
            && (!ok ==> t'.batteries == t.batteries && t'.linkQualities == t.linkQualities)
            && (ok ==> i.Some? && var id := t'.devices[i.value].id;
                  && Rows(t', k) == Rows(t, k) + [Measurement(now, id, ReadingOf(k, p))]
                  && AtMostOneMore(t.batteries, t'.batteries, now, id)
                  && AtMostOneMore(t.linkQualities, t'.linkQualities, now, id))
  {
    var (t1, id) := FindOrCreate(t, k, deviceId, p, f);
    FindOrCreateViews(t, k, deviceId, p, f, deviceId);
    FindOrCreateRows(t, k, deviceId, p, f);
    if id.Some? && !f.measurement {
      InsertShape(t1, k, id.value, p, now, f);
    }
  }

  lemma FindOrCreateRows(t: Tables, k: Kind, deviceId: string, p: Payload, f: Faults)
    ensures var (t', id) := FindOrCreate(t, k, deviceId, p, f);
            && t' == t.(devices := t'.devices, nextId := t'.nextId)
            && (forall k' :: Rows(t', k') == Rows(t, k'))
            && (id.Some? <==> !f.query && (f.createDevice ==> IndexOf(t.devices, deviceId).Some?))
  {
  }

  /** For a stored text that is clean, the update branch gives the sanitised payload text whether or not it runs. */
  lemma UpdateIsSanitize(stored: string, p: Payload, key: string)
    requires IsClean(stored)
    ensures UpdatedText(stored, p, key) == match GetText(p, key)
                                           case None => stored
                                           case Some(s) => if s == "" then stored else SanitizeString(s)
  {
    SanitizeStringFixedPoints(stored);
  }

  /** The name after the device step, as far as it is there. */
  lemma StepName(v: Option<DeviceView>, k: Kind, p: Payload, f: Faults, name: string)
    requires GetText(p, "Name") == Some(name) && name != ""
    requires v.Some? ==> IsClean(v.value.name)
    requires !f.query && (f.createDevice ==> v.Some?)
    ensures var after := DeviceStep(v, k, p, f);
            && after.Some?
            && (after.value.name == SanitizeString(name) <==> !(f.save && v.Some? && v.value.name != SanitizeString(name)))
  {
    if v.Some? {
      UpdateIsSanitize(v.value.name, p, "Name");
    }
  }

  lemma ViewIsClean(t: Tables, deviceId: string)
    requires ValidTables(t)
    ensures ViewOf(t, deviceId).Some? ==> IsClean(ViewOf(t, deviceId).value.name)
  {
  }

  /**
   After a successful store with a non-empty name the stored name is the sanitised
   payload name, except exactly when the update was needed and its result, which
   the handler ignores, was a failure.
   */
  lemma StoredNameIsSanitized(t: Tables, k: Kind, deviceId: string, p: Payload, now: int, f: Faults, name: string)
    requires ValidTables(t) && GetText(p, "Name") == Some(name) && name != ""
    ensures var (t', ok) := Store(t, k, deviceId, p, now, f);
            var before, after := ViewOf(t, deviceId), ViewOf(t', deviceId);
            ok ==>
              && after.Some?
              && (after.value.name == SanitizeString(name) <==>
                  !(f.save && before.Some? && before.value.name != SanitizeString(name)))
  {
    if Store(t, k, deviceId, p, now, f).1 {
      var before := ViewOf(t, deviceId);
      StoreAddsOneMeasurement(t, k, deviceId, p, now, f);
      StoreViews(t, k, deviceId, p, now, f, deviceId);
      ContributionName(before, k, p, f);
      ViewIsClean(t, deviceId);
      StepName(before, k, p, f, name);
    }
  }
}
