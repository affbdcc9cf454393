/** The telemetry handler: corrected payload and device lookup, and stores in any order. */
module Telemetry {
  import opened Common
  import opened Float64
  import opened Devices
  import opened Tables

  /** One entry of ZbReceived; fields that may be missing are options. */
  datatype ZigbeeDevice = ZigbeeDevice(
    device: string, name: string,
    power: Option<int>, endpoint: Option<int>, linkQuality: Option<int>, batteryPercentage: Option<int>,
    temperature: Option<real>, humidity: Option<real>, pressure: Option<real>, voltage: Option<real>,
    contact: Option<bool>, occupancy: Option<bool>, waterLeak: Option<bool>,
    waterLevel: Option<int>, lastValveOpenDuration: Option<int>,
    irrigationStartTime: Option<int>, irrigationEndTime: Option<int>, dailyIrrigationVolume: Option<int>)

  // ------------------------------------------------------------------ corrections

  /** applyCorrectionToFloat: add the correction if there is one that parses. */
  function CorrectFloat(value: real, key: string, d: Device): real {
    if key in d.corrections && d.corrections[key].Some? then value + d.corrections[key].value else value
  }

  /** applyCorrectionToInt: the correction is truncated first, and the sum is Go's int. */
  function CorrectInt(value: int, key: string, d: Device): int {
    if key in d.corrections && d.corrections[key].Some? then Wrap64(value + ToInt(d.corrections[key].value)) else value
  }

  // ---------------------------------------------------------------------- payload

  function FloatField(v: Option<real>, key: string, d: Device): Option<Value> {
    match v
    case None => None
    case Some(x) => Some(Number(CorrectFloat(x, key, d)))
  }

  /** A corrected integer, stored as a float64. */
  function IntField(v: Option<int>, key: string, d: Device): Option<Value> {
    match v
    case None => None
    case Some(n) => Some(Number(FromInt(CorrectInt(n, key, d)) as real))
  }

  /** An uncorrected integer, stored as a float64. */
  function PlainField(v: Option<int>): Option<Value> {
    match v
    case None => None
    case Some(n) => Some(Number(FromInt(n) as real))
  }

  function FlagField(v: Option<bool>): Option<Value> {
    match v
    case None => None
    case Some(b) => Some(Flag(b))
  }

  function TextField(s: string): Option<Value> {
    if s == "" then None else Some(Text(s))
  }

  /** The entries that telemetry can put into a payload. */
  datatype Field =
    | FDevice
    | FName
    | FTemperature
    | FHumidity
    | FPressure
    | FVoltage
    | FBatteryPercentage
    | FPower
    | FLinkQuality
    | FEndpoint
    | FContact
    | FOccupancy
    | FWaterLeak
    | FWaterLevel
    | FLastValveOpenDuration
    | FIrrigationStartTime
    | FIrrigationEndTime
    | FDailyIrrigationVolume

  function KeyOf(f: Field): string {
    match f
    case FDevice => "Device"
    case FName => "Name"
    case FTemperature => "Temperature"
    case FHumidity => "Humidity"
    case FPressure => "Pressure"
    case FVoltage => "Voltage"
    case FBatteryPercentage => "BatteryPercentage"
    case FPower => "Power"
    case FLinkQuality => "LinkQuality"
    case FEndpoint => "Endpoint"
    case FContact => "Contact"
    case FOccupancy => "Occupancy"
    case FWaterLeak => "WaterLeak"
    case FWaterLevel => "WaterLevel"
    case FLastValveOpenDuration => "LastValveOpenDuration"
    case FIrrigationStartTime => "IrrigationStartTime"
    case FIrrigationEndTime => "IrrigationEndTime"
    case FDailyIrrigationVolume => "DailyIrrigationVolume"
  }

  /** What the payload holds for each field. */
  function FieldValue(d: Device, zb: ZigbeeDevice, f: Field): Option<Value> {
    match f
    case FDevice => TextField(zb.device)
    case FName => TextField(if d.friendlyName != "" then d.friendlyName else zb.name)
    case FTemperature => FloatField(zb.temperature, "temperature", d)
    case FHumidity => FloatField(zb.humidity, "humidity", d)
    case FPressure => FloatField(zb.pressure, "pressure", d)
    case FVoltage => FloatField(zb.voltage, "voltage", d)
    case FBatteryPercentage => IntField(zb.batteryPercentage, "battery_percentage", d)
    case FPower => IntField(zb.power, "power", d)
    case FLinkQuality => IntField(zb.linkQuality, "link_quality", d)
    case FEndpoint => PlainField(zb.endpoint)
    case FContact => FlagField(zb.contact)
    case FOccupancy => FlagField(zb.occupancy)
    case FWaterLeak => FlagField(zb.waterLeak)
    case FWaterLevel => IntField(zb.waterLevel, "water_level", d)
    case FLastValveOpenDuration => IntField(zb.lastValveOpenDuration, "last_valve_open_duration", d)
    case FIrrigationStartTime => PlainField(zb.irrigationStartTime)
    case FIrrigationEndTime => PlainField(zb.irrigationEndTime)
    case FDailyIrrigationVolume => IntField(zb.dailyIrrigationVolume, "daily_irrigation_volume", d)
  }

  lemma FieldKeyInjective(f: Field, g: Field)
    requires KeyOf(f) == KeyOf(g)
    ensures f == g
  {
    assert |KeyOf(f)| == |KeyOf(g)| && KeyOf(f)[0] == KeyOf(g)[0];
  }

  /** The place of a field in the order in which the handler sets them. */
  function Place(f: Field): (n: nat)
    ensures n < 18
  {
    match f
    case FDevice => 0
    case FName => 1
    case FTemperature => 2
    case FHumidity => 3
    case FPressure => 4
    case FVoltage => 5
    case FBatteryPercentage => 6
    case FPower => 7
    case FLinkQuality => 8
    case FEndpoint => 9
    case FContact => 10
    case FOccupancy => 11
    case FWaterLeak => 12
    case FWaterLevel => 13
    case FLastValveOpenDuration => 14
    case FIrrigationStartTime => 15
    case FIrrigationEndTime => 16
    case FDailyIrrigationVolume => 17
  }

  lemma PlaceInjective(f: Field, g: Field)
    requires Place(f) == Place(g)
    ensures f == g
  {
  }

  /** The first n fields have been set from value, and nothing else. */
  ghost predicate Holds(p: Payload, value: Field -> Option<Value>, n: nat) {
    && (forall f: Field :: Lookup(p, KeyOf(f)) == if Place(f) < n then value(f) else None)
    && (forall key :: key in p ==> exists f: Field :: key == KeyOf(f))
  }

  /** payload[key] = v, when the message has a value for the field. */
  method SetField(p: Payload, value: Field -> Option<Value>, f: Field) returns (r: Payload)
    requires Holds(p, value, Place(f))
    ensures Holds(r, value, Place(f) + 1)
  {
    r := p;
    if value(f).Some? {
      r := r[KeyOf(f) := value(f).value];
      forall g: Field | g != f ensures Lookup(r, KeyOf(g)) == Lookup(p, KeyOf(g)) {
        if KeyOf(g) == KeyOf(f) {
          FieldKeyInjective(g, f);
        }
      }
    }
    forall g: Field | Place(g) == Place(f) ensures g == f {
      PlaceInjective(g, f);
    }
  }

  method SetIdentifiersAndFloats(p: Payload, value: Field -> Option<Value>) returns (payload: Payload)
    requires Holds(p, value, 0)
    ensures Holds(payload, value, 6)
  {
    payload := p;
    payload := SetField(payload, value, FDevice);
    payload := SetField(payload, value, FName);
    payload := SetField(payload, value, FTemperature);
    payload := SetField(payload, value, FHumidity);
    payload := SetField(payload, value, FPressure);
    payload := SetField(payload, value, FVoltage);
  }

  method SetStatus(p: Payload, value: Field -> Option<Value>) returns (payload: Payload)
    requires Holds(p, value, 6)
    ensures Holds(payload, value, 10)
  {
    payload := p;
    payload := SetField(payload, value, FBatteryPercentage);
    payload := SetField(payload, value, FPower);
    payload := SetField(payload, value, FLinkQuality);
    payload := SetField(payload, value, FEndpoint);
  }

  method SetFlags(p: Payload, value: Field -> Option<Value>) returns (payload: Payload)
    requires Holds(p, value, 10)
    ensures Holds(payload, value, 14)
  {
    payload := p;
    payload := SetField(payload, value, FContact);
    payload := SetField(payload, value, FOccupancy);
    payload := SetField(payload, value, FWaterLeak);
    payload := SetField(payload, value, FWaterLevel);
  }

  method SetOpening(p: Payload, value: Field -> Option<Value>) returns (payload: Payload)
    requires Holds(p, value, 14)
    ensures Holds(payload, value, 16)
  {
    payload := p;
    payload := SetField(payload, value, FLastValveOpenDuration);
    payload := SetField(payload, value, FIrrigationStartTime);
  }

  method SetIrrigation(p: Payload, value: Field -> Option<Value>) returns (payload: Payload)
    requires Holds(p, value, 16)
    ensures Holds(payload, value, 18)
  {
    payload := p;
    payload := SetField(payload, value, FIrrigationEndTime);
    payload := SetField(payload, value, FDailyIrrigationVolume);
  }

  ghost function ValueUnder(value: Field -> Option<Value>, key: string): (v: Option<Value>)
    ensures forall f: Field :: KeyOf(f) == key ==> v == value(f)
  {
    if f: Field :| KeyOf(f) == key then
      assert forall g: Field :: KeyOf(g) == key ==> g == f by {
        forall g: Field | KeyOf(g) == key ensures g == f {
          FieldKeyInjective(g, f);
        }
      }
      value(f)
    else None
  }

  /** All fields that have a value, under their keys. */
  ghost function PayloadFrom(value: Field -> Option<Value>): (p: Payload)
    ensures Holds(p, value, 18)
  {
    map key | key in (set f: Field | true :: KeyOf(f)) && ValueUnder(value, key).Some? :: ValueUnder(value, key).value
  }

  /** The payload of a device as a value. */
  ghost function PayloadOf(d: Device, zb: ZigbeeDevice): (p: Payload)
    ensures IsPayload(p, d, zb)
  {
    PayloadFrom((f: Field) => FieldValue(d, zb, f))
  }

  /** The payload of a device: every field under its key, and no other key. */
  ghost predicate IsPayload(p: Payload, d: Device, zb: ZigbeeDevice) {
    && (forall f: Field :: Lookup(p, KeyOf(f)) == FieldValue(d, zb, f))
    && (forall key :: key in p ==> exists f: Field :: key == KeyOf(f))
  }

  /** The payload with its entries set one after the other. */
  method BuildPayload(d: Device, zb: ZigbeeDevice) returns (payload: Payload)
    ensures IsPayload(payload, d, zb) && payload == PayloadOf(d, zb)
  {
    var value := (f: Field) => FieldValue(d, zb, f);
    payload := map[];
    payload := SetIdentifiersAndFloats(payload, value);
    payload := SetStatus(payload, value);
    payload := SetFlags(payload, value);
    payload := SetOpening(payload, value);
    payload := SetIrrigation(payload, value);
    PayloadUnique(payload, PayloadOf(d, zb), d, zb);
  }

  lemma PayloadUnique(p: Payload, q: Payload, d: Device, zb: ZigbeeDevice)
    requires IsPayload(p, d, zb) && IsPayload(q, d, zb)
    ensures p == q
  {
    forall key | key in p || key in q ensures Lookup(p, key) == Lookup(q, key) {
      var f: Field :| key == KeyOf(f);
    }
    assert forall key :: key in p <==> key in q by {
      forall key ensures key in p <==> key in q {
        if key in p || key in q { assert Lookup(p, key) == Lookup(q, key); }
      }
    }
    forall key | key in p ensures p[key] == q[key] {
      assert Lookup(p, key) == Lookup(q, key);
    }
  }

  // ---------------------------------------------------------- what the entries hold

  /** The correction of a real quantity; zero when there is none that parses. */
  function RealCorrection(key: string, d: Device): real {
    if key !in d.corrections || d.corrections[key].None? then 0.0 else d.corrections[key].value
  }

  /** The correction of an integer, as the conversion to int leaves it; zero when there is none that parses. */
  function IntCorrection(key: string, d: Device): int {
    if key !in d.corrections || d.corrections[key].None? then 0 else ToInt(d.corrections[key].value)
  }

  function Plus(v: Option<real>, amount: real): Option<real> {
    if v.Some? then Some(v.value + amount) else None
  }

  /** A corrected int as a float64. */
  function PlusInt(v: Option<int>, amount: int): Option<real> {
    if v.Some? then Some(FromInt(Wrap64(v.value + amount)) as real) else None
  }

  /** The entry is the number, and missing when there is none. */
  predicate HasNumber(p: Payload, key: string, v: Option<real>) {
    Lookup(p, key) == if v.Some? then Some(Number(v.value)) else None
  }

  predicate HasFlag(p: Payload, key: string, v: Option<bool>) {
    Lookup(p, key) == if v.Some? then Some(Flag(v.value)) else None
  }

  predicate HasText(p: Payload, key: string, text: string) {
    Lookup(p, key) == if text != "" then Some(Text(text)) else None
  }

  /** Real quantities with their corrections added. */
  predicate HasReals(p: Payload, d: Device, zb: ZigbeeDevice) {
    && HasNumber(p, "Temperature", Plus(zb.temperature, RealCorrection("temperature", d)))
    && HasNumber(p, "Humidity", Plus(zb.humidity, RealCorrection("humidity", d)))
    && HasNumber(p, "Pressure", Plus(zb.pressure, RealCorrection("pressure", d)))
    && HasNumber(p, "Voltage", Plus(zb.voltage, RealCorrection("voltage", d)))
  }

  /** The integers a message carries are Go ints. */
  predicate IntsFit(zb: ZigbeeDevice) {
    && Fits(zb.power) && Fits(zb.endpoint) && Fits(zb.linkQuality) && Fits(zb.batteryPercentage) && Fits(zb.waterLevel)
    && Fits(zb.lastValveOpenDuration) && Fits(zb.irrigationStartTime) && Fits(zb.irrigationEndTime)
    && Fits(zb.dailyIrrigationVolume)
  }

  predicate Fits(v: Option<int>) {
    v.Some? ==> IsInt64(v.value)
  }

  /** Integers with their corrections added, and three that have none. */
  predicate HasInts(p: Payload, d: Device, zb: ZigbeeDevice) {
    && HasNumber(p, "BatteryPercentage", PlusInt(zb.batteryPercentage, IntCorrection("battery_percentage", d)))
    && HasNumber(p, "Power", PlusInt(zb.power, IntCorrection("power", d)))
    && HasNumber(p, "LinkQuality", PlusInt(zb.linkQuality, IntCorrection("link_quality", d)))
    && HasNumber(p, "WaterLevel", PlusInt(zb.waterLevel, IntCorrection("water_level", d)))
    && HasNumber(p, "LastValveOpenDuration", PlusInt(zb.lastValveOpenDuration, IntCorrection("last_valve_open_duration", d)))
    && HasNumber(p, "DailyIrrigationVolume", PlusInt(zb.dailyIrrigationVolume, IntCorrection("daily_irrigation_volume", d)))
    && HasNumber(p, "Endpoint", PlusInt(zb.endpoint, 0))
    && HasNumber(p, "IrrigationStartTime", PlusInt(zb.irrigationStartTime, 0))
    && HasNumber(p, "IrrigationEndTime", PlusInt(zb.irrigationEndTime, 0))
  }

  /** Flags as they are, and texts that are not empty; a friendly name goes before the one in the message. */
  predicate HasFlagsAndTexts(p: Payload, d: Device, zb: ZigbeeDevice) {
    && HasFlag(p, "Contact", zb.contact) && HasFlag(p, "Occupancy", zb.occupancy) && HasFlag(p, "WaterLeak", zb.waterLeak)
    && HasText(p, "Device", zb.device)
    && HasText(p, "Name", if d.friendlyName == "" then zb.name else d.friendlyName)
  }

  lemma EntryOf(p: Payload, d: Device, zb: ZigbeeDevice, f: Field, key: string)
    requires IsPayload(p, d, zb) && KeyOf(f) == key
    ensures Lookup(p, key) == FieldValue(d, zb, f)
  {
  }

  lemma RealUnder(p: Payload, d: Device, zb: ZigbeeDevice, f: Field, name: string, v: Option<real>, key: string)
    requires IsPayload(p, d, zb) && KeyOf(f) == name && FieldValue(d, zb, f) == FloatField(v, key, d)
    ensures HasNumber(p, name, Plus(v, RealCorrection(key, d)))
  {
    EntryOf(p, d, zb, f, name);
  }

  lemma RealEntries(p: Payload, d: Device, zb: ZigbeeDevice)
    requires IsPayload(p, d, zb)
    ensures HasReals(p, d, zb)
  {
    RealUnder(p, d, zb, FTemperature, "Temperature", zb.temperature, "temperature");
    RealUnder(p, d, zb, FHumidity, "Humidity", zb.humidity, "humidity");
    RealUnder(p, d, zb, FPressure, "Pressure", zb.pressure, "pressure");
    RealUnder(p, d, zb, FVoltage, "Voltage", zb.voltage, "voltage");
  }

  lemma CorrectedEntry(v: Option<int>, key: string, d: Device)
    requires Fits(v)
    ensures IntField(v, key, d) == match PlusInt(v, IntCorrection(key, d)) case None => None case Some(x) => Some(Number(x))
  {
  }

  lemma PlainEntry(v: Option<int>)
    requires Fits(v)
    ensures PlainField(v) == match PlusInt(v, 0) case None => None case Some(x) => Some(Number(x))
  {
  }

  lemma CorrectedUnder(p: Payload, d: Device, zb: ZigbeeDevice, f: Field, name: string, v: Option<int>, key: string)
    requires IsPayload(p, d, zb) && KeyOf(f) == name && FieldValue(d, zb, f) == IntField(v, key, d)
    requires Fits(v)
    ensures HasNumber(p, name, PlusInt(v, IntCorrection(key, d)))
  {
    EntryOf(p, d, zb, f, name);
    CorrectedEntry(v, key, d);
  }

  lemma PlainUnder(p: Payload, d: Device, zb: ZigbeeDevice, f: Field, name: string, v: Option<int>)
    requires IsPayload(p, d, zb) && KeyOf(f) == name && FieldValue(d, zb, f) == PlainField(v)
    requires Fits(v)
    ensures HasNumber(p, name, PlusInt(v, 0))
  {
    EntryOf(p, d, zb, f, name);
    PlainEntry(v);
  }

  lemma IntEntries(p: Payload, d: Device, zb: ZigbeeDevice)
    requires IsPayload(p, d, zb) && IntsFit(zb)
    ensures HasInts(p, d, zb)
  {
    CorrectedUnder(p, d, zb, FBatteryPercentage, "BatteryPercentage", zb.batteryPercentage, "battery_percentage");
    CorrectedUnder(p, d, zb, FPower, "Power", zb.power, "power");
    CorrectedUnder(p, d, zb, FLinkQuality, "LinkQuality", zb.linkQuality, "link_quality");
    CorrectedUnder(p, d, zb, FWaterLevel, "WaterLevel", zb.waterLevel, "water_level");
    CorrectedUnder(p, d, zb, FLastValveOpenDuration, "LastValveOpenDuration", zb.lastValveOpenDuration, "last_valve_open_duration");
    CorrectedUnder(p, d, zb, FDailyIrrigationVolume, "DailyIrrigationVolume", zb.dailyIrrigationVolume, "daily_irrigation_volume");
    PlainUnder(p, d, zb, FEndpoint, "Endpoint", zb.endpoint);
    PlainUnder(p, d, zb, FIrrigationStartTime, "IrrigationStartTime", zb.irrigationStartTime);
    PlainUnder(p, d, zb, FIrrigationEndTime, "IrrigationEndTime", zb.irrigationEndTime);
  }

  lemma FlagAndTextEntries(p: Payload, d: Device, zb: ZigbeeDevice)
    requires IsPayload(p, d, zb)
    ensures HasFlagsAndTexts(p, d, zb)
  {
    EntryOf(p, d, zb, FContact, "Contact");
    EntryOf(p, d, zb, FOccupancy, "Occupancy");
    EntryOf(p, d, zb, FWaterLeak, "WaterLeak");
    EntryOf(p, d, zb, FDevice, "Device");
    EntryOf(p, d, zb, FName, "Name");
  }

  /** All of them together; these are the entries of every payload that the handler builds. */
  lemma PayloadEntries(d: Device, zb: ZigbeeDevice)
    ensures var p := PayloadOf(d, zb);
            HasReals(p, d, zb) && HasFlagsAndTexts(p, d, zb) && (IntsFit(zb) ==> HasInts(p, d, zb))
  {
    var p := PayloadOf(d, zb);
    RealEntries(p, d, zb);
    FlagAndTextEntries(p, d, zb);
    if IntsFit(zb) {
      IntEntries(p, d, zb);
    }
  }

  // ------------------------------------------------------- addresses that are never stored

  /** Telemetry never fills the entries that the handlers read a short or IEEE address from. */
  lemma NoAddressEntries(d: Device, zb: ZigbeeDevice)
    ensures "databaseiotgorm.Device" !in PayloadOf(d, zb) && "IEEEAddr" !in PayloadOf(d, zb)
  {
    forall f: Field ensures KeyOf(f) != "databaseiotgorm.Device" && KeyOf(f) != "IEEEAddr" {
      assert |KeyOf(f)| != |"databaseiotgorm.Device"|;
      assert KeyOf(f)[1] != 'E';
    }
  }

  /** All jobs carry telemetry. */
  ghost predicate FromTelemetry(jobs: seq<Job>) {
    forall i :: 0 <= i < |jobs| ==> exists d, zb :: jobs[i].payload == PayloadOf(d, zb)
  }

  ghost predicate Unaddressed(t: Tables) {
    forall i :: 0 <= i < |t.devices| ==> t.devices[i].shortAddr == "" && t.devices[i].ieeeAddr == ""
  }

  lemma StoreUnaddressed(t: Tables, k: Kind, deviceId: string, p: Payload, now: int, f: Faults)
    requires Unaddressed(t) && "databaseiotgorm.Device" !in p && "IEEEAddr" !in p
    ensures Unaddressed(Store(t, k, deviceId, p, now, f).0)
  {
    var (t', id) := FindOrCreate(t, k, deviceId, p, f);
    assert GetText(p, "databaseiotgorm.Device").None? && GetText(p, "IEEEAddr").None?;
    assert Unaddressed(t');
    if id.Some? {
      InsertShape(t', k, id.value, p, now, f);
    }
  }

  lemma {:induction false} RunUnaddressed(t: Tables, jobs: seq<Job>)
    requires Unaddressed(t) && FromTelemetry(jobs)
    ensures Unaddressed(Run(t, jobs))
    decreases |jobs|
  {
    if jobs != [] {
      var j := jobs[0];
      var d, zb :| j.payload == PayloadOf(d, zb);
      NoAddressEntries(d, zb);
      StoreUnaddressed(t, j.kind, j.deviceId, j.payload, j.now, j.faults);
      RunUnaddressed(After(t, j), jobs[1..]);
    }
  }

  /**
   The short address of a device, which every message carries, never reaches the
   database: producer and handlers disagree on the name of its entry.  However many
   messages are stored, in every device row it is empty.
   */
  lemma ShortAddressesAreNeverStored(jobs: seq<Job>)
    requires FromTelemetry(jobs)
    ensures Unaddressed(Run(EMPTY, jobs))
  {
    RunUnaddressed(EMPTY, jobs);
  }

  // ----------------------------------------------------------------- device lookup

  /** The first device in the namespace list whose status carries the short address. */
  function FindByShortAddr(devices: seq<Device>, shortAddr: string): (r: Option<Device>)
    ensures r.Some? ==> exists i :: 0 <= i < |devices| && devices[i] == r.value && r.value.shortAddr == shortAddr
                                    && forall j :: 0 <= j < i ==> devices[j].shortAddr != shortAddr
    ensures r.None? ==> forall i :: 0 <= i < |devices| ==> devices[i].shortAddr != shortAddr
  {
    if devices == [] then None
    else if devices[0].shortAddr == shortAddr then
      assert devices[0] == devices[0];
      Some(devices[0])
    else
      var r := FindByShortAddr(devices[1..], shortAddr);
      assert forall j :: 0 < j < |devices| ==> devices[j] == devices[1..][j - 1];
      r
  }

  /** Distinct short addresses of one message reach devices with distinct names. */
  lemma DistinctAddressesDistinctDevices(devices: seq<Device>, a: string, b: string)
    requires UniqueNames(devices) && a != b
    requires FindByShortAddr(devices, a).Some? && FindByShortAddr(devices, b).Some?
    ensures FindByShortAddr(devices, a).value.name != FindByShortAddr(devices, b).value.name
  {
    var da, db := FindByShortAddr(devices, a).value, FindByShortAddr(devices, b).value;
    var i :| 0 <= i < |devices| && devices[i] == da;
    var j :| 0 <= j < |devices| && devices[j] == db;
  }

  // --------------------------------------------------------------- order independence

  /** No two calls are for the same device. */
  ghost predicate DistinctTargets(jobs: seq<Job>) {
    forall i, j :: 0 <= i < j < |jobs| ==> jobs[i].deviceId != jobs[j].deviceId
  }

  /** The calls without their times. */
  function Timeless(jobs: seq<Job>): (r: seq<Job>)
    ensures |r| == |jobs| && forall i :: 0 <= i < |jobs| ==> r[i] == jobs[i].(now := 0)
  {
    seq(|jobs|, i requires 0 <= i < |jobs| => jobs[i].(now := 0))
  }

  lemma {:induction false} UntouchedView(t: Tables, jobs: seq<Job>, d: string)
    requires ValidTables(t) && forall i :: 0 <= i < |jobs| ==> jobs[i].deviceId != d
    ensures ViewOf(Run(t, jobs), d) == ViewOf(t, d)
    decreases |jobs|
  {
    if jobs != [] {
      var j := jobs[0];
      StoreValid(t, j.kind, j.deviceId, j.payload, j.now, j.faults);
      StoreViews(t, j.kind, j.deviceId, j.payload, j.now, j.faults, d);
      UntouchedView(After(t, j), jobs[1..], d);
    }
  }

  /** After any list of calls for distinct devices, each device has received exactly what its own call contributes alone. */
  lemma {:induction false} TouchedView(t: Tables, jobs: seq<Job>, k: nat)
    requires ValidTables(t) && DistinctTargets(jobs) && k < |jobs|
    ensures var j := jobs[k];
            ViewOf(Run(t, jobs), j.deviceId) == Contribution(ViewOf(t, j.deviceId), j.kind, j.payload, j.faults)
    decreases |jobs|
  {
    var first, target := jobs[0], jobs[k].deviceId;
    var t' := After(t, first);
    StoreValid(t, first.kind, first.deviceId, first.payload, first.now, first.faults);
    StoreViews(t, first.kind, first.deviceId, first.payload, first.now, first.faults, target);
    if k == 0 {
      UntouchedView(t', jobs[1..], target);
    } else {
      TouchedView(t', jobs[1..], k - 1);
    }
  }

  /** The same calls in any order and at any times: a call of one list occurs in the other. */
  lemma SameCallIn(a: seq<Job>, b: seq<Job>, i: nat) returns (j: nat)
    requires multiset(Timeless(a)) == multiset(Timeless(b)) && i < |a|
    ensures j < |b| && b[j].(now := 0) == a[i].(now := 0)
  {
    var x := Timeless(a)[i];
    assert x in multiset(Timeless(a));
    assert x in Timeless(b);
    j :| 0 <= j < |b| && Timeless(b)[j] == x;
  }

  /** The final contents do not depend on the order of the calls, up to row keys and timestamps. */
  lemma OrderIndependence(t: Tables, a: seq<Job>, b: seq<Job>, d: string)
    requires ValidTables(t) && DistinctTargets(a) && DistinctTargets(b)
    requires multiset(Timeless(a)) == multiset(Timeless(b))
    ensures ViewOf(Run(t, a), d) == ViewOf(Run(t, b), d)
  {
    if i: nat :| i < |a| && a[i].deviceId == d {
      var j := SameCallIn(a, b, i);
      TouchedView(t, a, i);
      TouchedView(t, b, j);
    } else {
      forall j: nat | j < |b| ensures b[j].deviceId != d {
        var i := SameCallIn(b, a, j);
      }
      UntouchedView(t, a, d);
      UntouchedView(t, b, d);
    }
  }
}
