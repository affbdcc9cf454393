/** The alert query: filters, windowed average and threshold test over the measurement tables. */
module Alerts {
  import opened Common
  import opened Collecting
  import opened Float64
  import opened Devices
  import opened Tables
  import opened Handlers
  import Queries
  import opened Connections
  import opened Manager
  import opened Ingest

  const MINUTE: int := 60_000_000_000

  /** Empty strings and a zero duration mean no filter. */
  datatype Filters = Filters(deviceName: string, deviceType: string, location: string, room: string, since: int)

  // ------------------------------------------------------------------- measurements

  /** getMeasurementColumn */
  function ColumnOf(field: string): string {
    if field == "temperature" || field == "Temperature" then "temperature"
    else if field == "humidity" || field == "Humidity" then "humidity"
    else if field == "level" || field == "Level" || field == "water_level" then "level"
    else if field == "power" || field == "Power" then "power"
    else field
  }

  function IntCell(v: Option<int>): Option<real> {
    match v
    case None => None
    case Some(n) => Some(n as real)
  }

  /** The numeric columns of the measurement tables. */
  datatype Column =
    | Temperature
    | Humidity
    | Level
    | Power
    | LastValveOpenDuration
    | IrrigationStartTime
    | IrrigationEndTime
    | DailyIrrigationVolume
    | Endpoint

  function ColumnNamed(name: string): Option<Column> {
    if name == "temperature" then Some(Temperature)
    else if name == "humidity" then Some(Humidity)
    else if name == "level" then Some(Level)
    else if name == "power" then Some(Power)
    else if name == "last_valve_open_duration" then Some(LastValveOpenDuration)
    else if name == "irrigation_start_time" then Some(IrrigationStartTime)
    else if name == "irrigation_end_time" then Some(IrrigationEndTime)
    else if name == "daily_irrigation_volume" then Some(DailyIrrigationVolume)
    else if name == "endpoint" then Some(Endpoint)
    else None
  }

  /** Which columns the table of a kind has. */
  predicate HasColumn(k: Kind, c: Column) {
    match k
    case Moisture => c.Temperature? || c.Humidity? || c.Endpoint?
    case Room => c.Temperature? || c.Humidity? || c.Endpoint?
    case WaterLevel => c.Level? || c.Endpoint?
    case Valve => !c.Temperature? && !c.Humidity? && !c.Level?
  }

  /** The column that AVG is taken of; None when the statement is rejected. */
  function QueriedColumn(k: Kind, field: string): Option<Column> {
    match ColumnNamed(ColumnOf(field))
    case None => None
    case Some(c) => if HasColumn(k, c) then Some(c) else None
  }

  /** The cell of a reading under a column; NULL is None. */
  function Cell(r: Reading, c: Column): Option<real> {
    match r
    case MoistureReading(temperature, humidity, endpoint) => ClimateCell(temperature, humidity, endpoint, c)
    case RoomReading(temperature, humidity, endpoint) => ClimateCell(temperature, humidity, endpoint, c)
    case WaterLevelReading(level, endpoint) => if c.Level? then IntCell(level) else IntCell(endpoint)
    case ValveReading(power, lastValveOpenDuration, irrigationStartTime, irrigationEndTime, dailyIrrigationVolume, endpoint) =>
      if c.Power? then IntCell(power)
      else if c.LastValveOpenDuration? then IntCell(lastValveOpenDuration)
      else if c.IrrigationStartTime? then IntCell(irrigationStartTime)
      else if c.IrrigationEndTime? then IntCell(irrigationEndTime)
      else if c.DailyIrrigationVolume? then IntCell(dailyIrrigationVolume)
      else IntCell(endpoint)
  }

  function ClimateCell(temperature: Option<real>, humidity: Option<real>, endpoint: Option<int>, c: Column): Option<real> {
    if c.Temperature? then temperature else if c.Humidity? then humidity else IntCell(endpoint)
  }

  /** WHERE device_id = ? AND timestamp >= ? */
  function Window(rows: seq<Measurement>, id: nat, since: int): seq<Measurement> {
    if rows == [] then []
    else
      var m := rows[|rows| - 1];
      Window(rows[..|rows| - 1], id, since) + if m.deviceId == id && m.timestamp >= since then [m] else []
  }

  /** The cells of a column that are not NULL. */
  function Values(rows: seq<Measurement>, c: Column): seq<real> {
    if rows == [] then [] else Values(rows[..|rows| - 1], c) + OptionSeq(Cell(rows[|rows| - 1].reading, c))
  }

  function Sum(values: seq<real>): real {
    if values == [] then 0.0 else Sum(values[..|values| - 1]) + values[|values| - 1]
  }

  /** AVG; the NULL of a window without values is scanned as zero. */
  function Average(values: seq<real>): real {
    if values == [] then 0.0 else Sum(values) / (|values| as real)
  }

  /** MAX(timestamp) */
  function Last(rows: seq<Measurement>): Option<int> {
    if rows == [] then None
    else
      var before, t := Last(rows[..|rows| - 1]), rows[|rows| - 1].timestamp;
      if before.None? || t > before.value then Some(t) else before
  }

  /** What the query for one device meets: the database for its type, the clock, and whether its statements fail. */
  datatype Query = Query(tables: Option<Tables>, now: int, faults: ReadFaults)

  datatype CurrentValue =
    | Failed
    | NoValue
    | Value(device: DeviceRow, value: real, last: int)

  /** Go's negation of a duration, which leaves the least one as it is. */
  function Negated(since: int): int {
    if since == -INT64_LIMIT then since else -since
  }

  /** The time window: one minute when no duration is given. */
  function SinceOf(now: int, since: int): int {
    now + Negated(if since == 0 then MINUTE else since)
  }

  function AverageIn(rows: seq<Measurement>, device: DeviceRow, c: Column, since: int): CurrentValue {
    var window := Window(rows, device.id, since);
    match Last(window)
    case None => NoValue
    case Some(last) => Value(device, Average(Values(window, c)), last)
  }

  /** The average from the table of a kind. */
  function AverageOfKind(t: Tables, k: Kind, device: DeviceRow, column: Option<Column>, since: int, fails: bool): CurrentValue {
    if fails || column.None? then Failed else AverageIn(Rows(t, k), device, column.value, since)
  }

  function AverageMeasurement(t: Tables, device: DeviceRow, sensorType: string, column: Kind -> Option<Column>,
                              since: int, fails: bool): CurrentValue
  {
    match KindOf(sensorType)
    case None => Failed
    case Some(k) => AverageOfKind(t, k, device, column(k), since, fails)
  }

  /** The device row, if the statement works and finds one. */
  function DeviceIn(t: Tables, deviceId: string, fails: bool): Option<DeviceRow> {
    if fails then None else Found(t, deviceId)
  }

  /** The device from the database, and then its average. */
  function MeasurementIn(t: Tables, deviceId: string, sensorType: string, column: Kind -> Option<Column>, since: int, faults: ReadFaults)
    : CurrentValue
  {
    match DeviceIn(t, deviceId, faults.device)
    case None => Failed
    case Some(device) => AverageMeasurement(t, device, sensorType, column, since, faults.measurements)
  }

  function MeasurementValue(q: Query, deviceId: string, sensorType: string, field: string, since: int): CurrentValue {
    match q.tables
    case None => Failed
    case Some(t) => MeasurementIn(t, deviceId, sensorType, k => QueriedColumn(k, field), SinceOf(q.now, since), q.faults)
  }

  predicate Evaluate(value: real, c: AlertCondition) {
    if c.threshold.None? then false
    else if c.operator == "above" then value > c.threshold.value
    else if c.operator == "below" then value < c.threshold.value
    else if c.operator == "is" || c.operator == "equals" then value == c.threshold.value
    else false
  }

  // ------------------------------------------------------------- names and conditions

  /** The names under which an alert may ask for a column. */
  predicate IsNameOf(measurement: string, c: Column) {
    match c
    case Temperature => measurement in {"temperature", "Temperature"}
    case Humidity => measurement in {"humidity", "Humidity"}
    case Level => measurement in {"level", "Level", "water_level"}
    case Power => measurement in {"power", "Power"}
    case LastValveOpenDuration => measurement == "last_valve_open_duration"
    case IrrigationStartTime => measurement == "irrigation_start_time"
    case IrrigationEndTime => measurement == "irrigation_end_time"
    case DailyIrrigationVolume => measurement == "daily_irrigation_volume"
    case Endpoint => measurement == "endpoint"
  }

  /** The columns that the measurements of a sensor type have. */
  predicate Measures(sensorType: string, c: Column): (r: bool)
    ensures r ==> KindOf(sensorType).Some?
  {
    || (sensorType in {"moisture", "room"} && c in {Temperature, Humidity, Endpoint})
    || (sensorType == "water_level" && c in {Level, Endpoint})
    || (sensorType == "valve" && c in {Power, LastValveOpenDuration, IrrigationStartTime, IrrigationEndTime,
                                       DailyIrrigationVolume, Endpoint})
  }

  lemma NamedIsQueried(k: Kind, measurement: string, c: Column)
    requires IsNameOf(measurement, c)
    ensures QueriedColumn(k, measurement) == if HasColumn(k, c) then Some(c) else None
  {
  }

  lemma HasIsMeasures(sensorType: string, c: Column)
    ensures Measures(sensorType, c) <==> KindOf(sensorType).Some? && HasColumn(KindOf(sensorType).value, c)
  {
  }

  lemma QueriedHasName(measurement: string)
    ensures ColumnNamed(ColumnOf(measurement)).Some? ==> IsNameOf(measurement, ColumnNamed(ColumnOf(measurement)).value)
  {
  }

  /** The column of the query is the one that the alert names, of those that the type measures, and no other name is accepted. */
  lemma QueriedIsNamed(sensorType: string, measurement: string, c: Column)
    ensures KindOf(sensorType).Some? && QueriedColumn(KindOf(sensorType).value, measurement) == Some(c) <==>
            IsNameOf(measurement, c) && Measures(sensorType, c)
  {
    HasIsMeasures(sensorType, c);
    QueriedHasName(measurement);
    if KindOf(sensorType).Some? && IsNameOf(measurement, c) {
      NamedIsQueried(KindOf(sensorType).value, measurement, c);
    }
  }

  /** What a condition asks of a value. */
  predicate IsMet(c: AlertCondition, value: real) {
    && c.threshold.Some?
    && (|| (c.operator == "above" && value > c.threshold.value)
        || (c.operator == "below" && value < c.threshold.value)
        || (c.operator in {"is", "equals"} && value == c.threshold.value))
  }

  lemma EvaluateIsMet(value: real, c: AlertCondition)
    ensures Evaluate(value, c) <==> IsMet(c, value)
  {
  }

  // ------------------------------------------------------------------ specification

  datatype AlertDevice = AlertDevice(deviceId: string, deviceName: string, sensorType: string, location: string, room: string,
                                     ieeeAddr: string, shortAddr: string, currentValue: real, lastMeasurement: int,
                                     condition: AlertCondition)

  predicate Passes(wanted: string, actual: string) {
    wanted == "" || actual == wanted
  }

  predicate Matches(d: Device, f: Filters) {
    && Passes(f.deviceName, d.name) && Passes(f.deviceType, d.sensorType)
    && Passes(f.location, d.location) && Passes(f.room, d.room)
  }

  /** The measured value of a device that is to be alerted on, if it meets its condition. */
  function Firing(d: Device, since: int, q: Query): Option<CurrentValue> {
    if d.alert.None? || d.disabled then None
    else
      var v := MeasurementValue(q, d.name, d.sensorType, d.alert.value.measurement, since);
      if v.Value? && Evaluate(v.value, d.alert.value) then Some(v) else None
  }

  function AlertOf(d: Device, v: CurrentValue): AlertDevice
    requires d.alert.Some? && v.Value?
  {
    AlertDevice(d.name, d.friendlyName, d.sensorType, d.location, d.room, d.ieeeAddr, v.device.shortAddr, v.value, v.last, d.alert.value)
  }

  /** The alert of a device under filters, if any. */
  function AlertFor(d: Device, f: Filters, q: Query): Option<AlertDevice> {
    var v := Firing(d, f.since, q);
    if Matches(d, f) && v.Some? then Some(AlertOf(d, v.value)) else None
  }

  function AlertUnder(f: Filters): (Device, Query) -> Option<AlertDevice> {
    (d, q) => AlertFor(d, f, q)
  }

  /** The alert of each device, if any; the i-th one is asked for with queries[i]. */
  function AlertsOf(devices: seq<Device>, f: Filters, queries: seq<Query>): (r: seq<Option<AlertDevice>>)
    requires |queries| == |devices|
    ensures |r| == |devices|
  {
    Zip(devices, queries, AlertUnder(f))
  }

  function Triggered(devices: seq<Device>, f: Filters, queries: seq<Query>): seq<AlertDevice>
    requires |queries| == |devices|
  {
    Collect(AlertsOf(devices, f, queries))
  }

  /** The result is the order-preserving subsequence of exactly the devices that pass the filters and fire, each reported once. */
  lemma TriggeredIsExact(devices: seq<Device>, f: Filters, queries: seq<Query>) returns (at: seq<nat>)
    requires |queries| == |devices|
    ensures IsExact(AlertsOf(devices, f, queries), Triggered(devices, f, queries), at)
  {
    at := CollectIsExact(AlertsOf(devices, f, queries));
  }

  /** The filters on a finished alert. */
  predicate Wanted(a: AlertDevice, f: Filters) {
    && Passes(f.deviceName, a.deviceId) && Passes(f.deviceType, a.sensorType)
    && Passes(f.location, a.location) && Passes(f.room, a.room)
  }

  function Unfiltered(f: Filters): Filters {
    Filters("", "", "", "", f.since)
  }

  lemma AlertForIsFiltered(d: Device, f: Filters, q: Query)
    ensures AlertFor(d, f, q) == (
              var all := AlertFor(d, Unfiltered(f), q); if all.Some? && Wanted(all.value, f) then all else None)
  {
    assert Matches(d, Unfiltered(f));
  }

  /** Filtering early, before the database is asked, gives what filtering the unfiltered result gives. */
  lemma EarlyIsLate(devices: seq<Device>, f: Filters, queries: seq<Query>)
    requires |queries| == |devices|
    ensures Triggered(devices, f, queries) == Filtered(Triggered(devices, Unfiltered(f), queries), a => Wanted(a, f))
  {
    var keep := a => Wanted(a, f);
    forall i | 0 <= i < |devices| {
      AlertForIsFiltered(devices[i], f, queries[i]);
    }
    CollectFiltered(AlertsOf(devices, Unfiltered(f), queries), AlertsOf(devices, f, queries), keep);
  }

  // ----------------------------------------------------- the time of the last measurement

  lemma LastAppend(rows: seq<Measurement>, m: Measurement)
    ensures Last(rows + [m]) == (
              if Last(rows).None? || m.timestamp > Last(rows).value then Some(m.timestamp) else Last(rows))
  {
    assert (rows + [m])[..|rows|] == rows;
  }

  lemma {:induction false} LastIsLatest(rows: seq<Measurement>, id: nat, since: int)
    ensures Last(Window(rows, id, since))
         == match Queries.Latest(rows, id)
            case None => None
            case Some(m) => if m.timestamp >= since then Some(m.timestamp) else None
  {
    if rows != [] {
      var init, m := rows[..|rows| - 1], rows[|rows| - 1];
      LastIsLatest(init, id, since);
      if m.deviceId == id && m.timestamp >= since {
        LastAppend(Window(init, id, since), m);
        assert Window(rows, id, since) == Window(init, id, since) + [m];
      } else {
        assert Window(rows, id, since) == Window(init, id, since);
      }
    }
  }

  /**
   The alert side and the reading side agree on the newest row: a device has a
   value exactly when its latest reading lies in the window, and the time that is
   reported is that reading's; the value is the average of the window all the same.
   */
  lemma ValueIffLatestInWindow(rows: seq<Measurement>, device: DeviceRow, c: Column, since: int)
    ensures var v, latest := AverageIn(rows, device, c, since), Queries.Latest(rows, device.id);
            && (v.Value? <==> latest.Some? && latest.value.timestamp >= since)
            && (v.Value? ==> v.last == latest.value.timestamp && v.device == device
                             && v.value == Average(Values(Window(rows, device.id, since), c)))
            && !v.Failed?
  {
    LastIsLatest(rows, device.id, since);
  }

  /**
   A window holds every row of the device that is not older than the duration, or than
   one minute when none is asked for, as often as it is stored, and no other.
   */
  lemma {:induction false} WindowIsExact(rows: seq<Measurement>, id: nat, now: int, since: int, m: Measurement)
    requires since >= 0
    ensures multiset(Window(rows, id, SinceOf(now, since)))[m]
         == if m.deviceId == id && now - m.timestamp <= (if since == 0 then 60_000_000_000 else since) then multiset(rows)[m] else 0
  {
    if rows != [] {
      WindowIsExact(rows[..|rows| - 1], id, now, since, m);
      assert rows == rows[..|rows| - 1] + [rows[|rows| - 1]];
    }
  }

  /**
   A negative duration asks for a window in the future, and finds nothing in it.  Only the
   least one has no negation, so that its window reaches 2^63 nanoseconds back.
   */
  lemma NegativeSinceFindsNothing(rows: seq<Measurement>, device: DeviceRow, c: Column, now: int, since: int)
    requires IsInt64(since) && since < 0
    requires forall i :: 0 <= i < |rows| ==> now - INT64_LIMIT <= rows[i].timestamp <= now
    ensures AverageIn(rows, device, c, SinceOf(now, since)).Value? <==>
            since == -INT64_LIMIT && Queries.Latest(rows, device.id).Some?
  {
    ValueIffLatestInWindow(rows, device, c, SinceOf(now, since));
    Queries.LatestIsNewest(rows, device.id);
  }

  /** The window of the query already enforces what the test on the last measurement asks for. */
  lemma LateTestNeverRemoves(q: Query, deviceId: string, sensorType: string, field: string, since: int, start: int)
    requires since > 0 && q.now >= start
    ensures var v := MeasurementValue(q, deviceId, sensorType, field, since); v.Value? ==> v.last >= start - since
  {
    var v := MeasurementValue(q, deviceId, sensorType, field, since);
    if v.Value? {
      var t := q.tables.value;
      LastIsLatest(Rows(t, KindOf(sensorType).value), t.devices[IndexOf(t.devices, deviceId).value].id, SinceOf(q.now, since));
    }
  }

  // ------------------------------------------------------------- averages and their data

  /** c, n times. */
  function Times(c: real, n: nat): real {
    if n == 0 then 0.0 else Times(c, n - 1) + c
  }

  lemma {:induction false} TimesIsProduct(c: real, n: nat)
    ensures Times(c, n) == c * (n as real)
  {
    if n > 0 {
      TimesIsProduct(c, n - 1);
      var m := (n - 1) as real;
      assert n as real == m + 1.0;
      assert c * (m + 1.0) == c * m + c;
    }
  }

  lemma {:induction false} SumAtMost(values: seq<real>, c: real)
    requires forall i :: 0 <= i < |values| ==> values[i] <= c
    ensures Sum(values) <= Times(c, |values|)
    ensures values != [] && values[0] < c ==> Sum(values) < Times(c, |values|)
  {
    if values != [] {
      SumAtMost(values[..|values| - 1], c);
    }
  }

  lemma {:induction false} SumAtLeast(values: seq<real>, c: real)
    requires forall i :: 0 <= i < |values| ==> values[i] >= c
    ensures Sum(values) >= Times(c, |values|)
    ensures values != [] && values[0] > c ==> Sum(values) > Times(c, |values|)
  {
    if values != [] {
      SumAtLeast(values[..|values| - 1], c);
    }
  }

  lemma Quotient(s: real, n: real, c: real)
    requires n > 0.0
    ensures s / n > c <==> s > c * n
    ensures s / n < c <==> s < c * n
  {
    assert s == (s / n) * n;
    if s / n > c {
      assert (s / n) * n > c * n;
    } else if s / n < c {
      assert (s / n) * n < c * n;
    } else {
      assert s / n == c;
    }
  }

  /**
   Averages bracket their data.  With at least one value in the window, an "above"
   alert means that some value is above the threshold, and it is certain when all
   are; "below" likewise.  So no alert comes from values that are all on the safe side.
   */
  lemma AverageBrackets(values: seq<real>, c: real)
    requires values != []
    ensures Average(values) > c ==> exists i :: 0 <= i < |values| && values[i] > c
    ensures Average(values) < c ==> exists i :: 0 <= i < |values| && values[i] < c
    ensures (forall i :: 0 <= i < |values| ==> values[i] > c) ==> Average(values) > c
    ensures (forall i :: 0 <= i < |values| ==> values[i] < c) ==> Average(values) < c
  {
    var n := |values| as real;
    TimesIsProduct(c, |values|);
    Quotient(Sum(values), n, c);
    assert Average(values) == Sum(values) / n;
    if forall i :: 0 <= i < |values| ==> values[i] <= c {
      SumAtMost(values, c);
      assert !(Average(values) > c);
    }
    if forall i :: 0 <= i < |values| ==> values[i] >= c {
      SumAtLeast(values, c);
      assert !(Average(values) < c);
    }
  }

  // --------------------------------------------------- average and latest reading

  lemma {:induction false} SumWithout(values: seq<real>, j: nat)
    requires j < |values|
    ensures Sum(values) == Sum(values[..j] + values[j + 1..]) + values[j]
  {
    var n := |values| - 1;
    if j == n {
      assert values[..j] + values[j + 1..] == values[..n];
    } else {
      SumWithout(values[..n], j);
      var others := values[..j] + values[j + 1..];
      assert others[..|others| - 1] == values[..n][..j] + values[..n][j + 1..];
      assert others[|others| - 1] == values[n];
    }
  }

  lemma QuotientIs(s: real, n: real, c: real)
    requires n > 0.0
    ensures s / n == c <==> s == c * n
  {
    assert s == (s / n) * n;
  }

  /** Adding x to n values with the sum s leaves their mean at x, or brings it there, only if it was x. */
  lemma OneMoreInMean(s: real, n: real, x: real)
    requires n > 0.0
    ensures (s + x) / (n + 1.0) == x <==> s / n == x
  {
    QuotientIs(s + x, n + 1.0, x);
    QuotientIs(s, n, x);
    assert x * (n + 1.0) == x * n + x;
  }

  /** One value is the average of all exactly when it is that of the others, or there are none. */
  lemma AverageIsOneOf(values: seq<real>, j: nat)
    requires j < |values|
    ensures var others := values[..j] + values[j + 1..];
            Average(values) == values[j] <==> others == [] || Average(others) == values[j]
  {
    var others := values[..j] + values[j + 1..];
    SumWithout(values, j);
    if others != [] {
      assert |values| as real == |others| as real + 1.0;
      OneMoreInMean(Sum(others), |others| as real, values[j]);
    }
  }

  lemma {:induction false} InWindow(rows: seq<Measurement>, id: nat, since: int, k: nat) returns (j: nat)
    requires k < |rows| && rows[k].deviceId == id && rows[k].timestamp >= since
    ensures j < |Window(rows, id, since)| && Window(rows, id, since)[j] == rows[k]
  {
    var n := |rows| - 1;
    if k == n {
      j := |Window(rows[..n], id, since)|;
    } else {
      j := InWindow(rows[..n], id, since, k);
    }
  }

  lemma {:induction false} InValues(rows: seq<Measurement>, c: Column, k: nat) returns (j: nat)
    requires k < |rows| && Cell(rows[k].reading, c).Some?
    ensures j < |Values(rows, c)| && Values(rows, c)[j] == Cell(rows[k].reading, c).value
  {
    var n := |rows| - 1;
    if k == n {
      j := |Values(rows[..n], c)|;
    } else {
      j := InValues(rows[..n], c, k);
    }
  }

  /** The value is there, and it is the cell of the latest reading. */
  ghost predicate IsLatestValue(rows: seq<Measurement>, device: DeviceRow, c: Column, since: int) {
    var v, latest := AverageIn(rows, device, c, since), Queries.Latest(rows, device.id);
    v.Value? && latest.Some? && Cell(latest.value.reading, c) == Some(v.value)
  }

  /** The latest reading is in the window, and has a cell. */
  ghost predicate HasLatestCell(rows: seq<Measurement>, device: DeviceRow, c: Column, since: int) {
    var latest := Queries.Latest(rows, device.id);
    latest.Some? && latest.value.timestamp >= since && Cell(latest.value.reading, c).Some?
  }

  /** The j-th value is the only one, or the others average to it. */
  ghost predicate OthersAgree(values: seq<real>, j: nat)
    requires j < |values|
  {
    var others := values[..j] + values[j + 1..];
    others == [] || Average(others) == values[j]
  }

  /**
   The query averages a window, also without a duration, where one minute is taken.
   The result is the latest reading's cell if and only if that reading is in the window
   and has a cell, and this is the only value there or the others average to it; so
   they do when all are equal.
   */
  lemma LatestIsTheValueIff(rows: seq<Measurement>, device: DeviceRow, c: Column, since: int) returns (j: nat)
    ensures var values := Values(Window(rows, device.id, since), c);
            && (HasLatestCell(rows, device, c, since) ==>
                  j < |values| && values[j] == Cell(Queries.Latest(rows, device.id).value.reading, c).value)
            && (IsLatestValue(rows, device, c, since) <==> HasLatestCell(rows, device, c, since) && OthersAgree(values, j))
  {
    j := 0;
    ValueIffLatestInWindow(rows, device, c, since);
    if HasLatestCell(rows, device, c, since) {
      Queries.LatestIsNewest(rows, device.id);
      var k: nat :| Queries.IsNewest(rows, device.id, k) && rows[k] == Queries.Latest(rows, device.id).value;
      var i := InWindow(rows, device.id, since, k);
      j := InValues(Window(rows, device.id, since), c, i);
      AverageIsOneOf(Values(Window(rows, device.id, since), c), j);
    }
  }

  lemma WindowAppend(rows: seq<Measurement>, m: Measurement, id: nat, since: int)
    ensures Window(rows + [m], id, since) == Window(rows, id, since) + if m.deviceId == id && m.timestamp >= since then [m] else []
  {
    assert (rows + [m])[..|rows|] == rows;
  }

  lemma ValuesAppend(rows: seq<Measurement>, m: Measurement, c: Column)
    ensures Values(rows + [m], c) == Values(rows, c) + OptionSeq(Cell(m.reading, c))
  {
    assert (rows + [m])[..|rows|] == rows;
  }

  lemma SumAppend(values: seq<real>, x: real)
    ensures Sum(values + [x]) == Sum(values) + x
  {
    assert (values + [x])[..|values|] == values;
  }

  lemma WindowOfTwo(a: Measurement, b: Measurement, id: nat, since: int)
    requires a.deviceId == id && b.deviceId == id && since <= a.timestamp < b.timestamp
    ensures var rows := [] + [a] + [b];
            Window(rows, id, since) == rows && Last(rows) == Some(b.timestamp) && Queries.Latest(rows, id) == Some(b)
  {
    WindowAppend([], a, id, since);
    WindowAppend([] + [a], b, id, since);
    LastAppend([], a);
    LastAppend([] + [a], b);
    Queries.LatestAppend([], a, id);
    Queries.LatestAppend([] + [a], b, id);
  }

  lemma MeanOfTwo(x: real, y: real)
    ensures Average([x, y]) == (x + y) / 2.0
  {
    SumAppend([], x);
    SumAppend([x], y);
    assert [] + [x] == [x] && [x] + [y] == [x, y];
  }

  lemma ValuesOfTwo(a: Measurement, b: Measurement, c: Column, x: real, y: real)
    requires Cell(a.reading, c) == Some(x) && Cell(b.reading, c) == Some(y)
    ensures Values([] + [a] + [b], c) == [x, y]
  {
    ValuesAppend([], a, c);
    ValuesAppend([] + [a], b, c);
  }

  /** With 0 and then 30 in the last minute, and no duration asked for, the latest reading is 30 but the value is 15. */
  lemma LatestIsNotTheValue(device: DeviceRow, now: int)
    ensures var a := Measurement(now - 2, device.id, MoistureReading(Some(0.0), None, None));
            var b := Measurement(now - 1, device.id, MoistureReading(Some(30.0), None, None));
            && Queries.Latest([a, b], device.id) == Some(b)
            && AverageIn([a, b], device, Temperature, SinceOf(now, 0)) == Value(device, 15.0, b.timestamp)
  {
    var a := Measurement(now - 2, device.id, MoistureReading(Some(0.0), None, None));
    var b := Measurement(now - 1, device.id, MoistureReading(Some(30.0), None, None));
    WindowOfTwo(a, b, device.id, SinceOf(now, 0));
    ValuesOfTwo(a, b, Temperature, 0.0, 30.0);
    MeanOfTwo(0.0, 30.0);
    assert [] + [a] + [b] == [a, b];
  }

  // ------------------------------------------------------------ alerts and their data

  /** Every alert is reported for an enabled device, and carries that device's condition and what was measured for it. */
  lemma DisabledAreNotReported(devices: seq<Device>, f: Filters, queries: seq<Query>) returns (at: seq<nat>)
    requires |queries| == |devices|
    ensures var alerts := Triggered(devices, f, queries);
            && IsExact(AlertsOf(devices, f, queries), alerts, at)
            && forall j :: 0 <= j < |alerts| ==>
                 var d := devices[at[j]];
                 && !d.disabled && d.alert == Some(alerts[j].condition) && d.name == alerts[j].deviceId
                 && Firing(d, f.since, queries[at[j]]).Some?
  {
    at := TriggeredIsExact(devices, f, queries);
    var alerts := Triggered(devices, f, queries);
    forall j | 0 <= j < |alerts|
      ensures at[j] < |devices| && AlertFor(devices[at[j]], f, queries[at[j]]) == Some(alerts[j])
    {
      assert AlertsOf(devices, f, queries)[at[j]] == Some(alerts[j]);
    }
  }

  /** The device, its table and its column are there. */
  predicate Queryable(d: Device, q: Query) {
    && d.alert.Some? && q.tables.Some? && IndexOf(q.tables.value.devices, d.name).Some?
    && KindOf(d.sensorType).Some? && QueriedColumn(KindOf(d.sensorType).value, d.alert.value.measurement).Some?
  }

  /** The values that the alert of a device looks at. */
  function WindowValues(d: Device, since: int, q: Query): seq<real>
    requires Queryable(d, q)
  {
    var t, k := q.tables.value, KindOf(d.sensorType).value;
    Values(Window(Rows(t, k), t.devices[IndexOf(t.devices, d.name).value].id, SinceOf(q.now, since)),
           QueriedColumn(k, d.alert.value.measurement).value)
  }

  /** A device is measured: it is to be alerted on, and the query finds rows in its window. */
  predicate Measured(d: Device, since: int, q: Query) {
    d.alert.Some? && !d.disabled && MeasurementValue(q, d.name, d.sensorType, d.alert.value.measurement, since).Value?
  }

  ghost predicate SomeAbove(values: seq<real>, c: real) {
    exists i :: 0 <= i < |values| && values[i] > c
  }

  ghost predicate AllAbove(values: seq<real>, c: real) {
    forall i :: 0 <= i < |values| ==> values[i] > c
  }

  ghost predicate SomeBelow(values: seq<real>, c: real) {
    exists i :: 0 <= i < |values| && values[i] < c
  }

  ghost predicate AllBelow(values: seq<real>, c: real) {
    forall i :: 0 <= i < |values| ==> values[i] < c
  }

  lemma MeasuredAverage(d: Device, since: int, q: Query)
    requires Measured(d, since, q)
    ensures Queryable(d, q)
    ensures Firing(d, since, q).Some? <==> Evaluate(Average(WindowValues(d, since, q)), d.alert.value)
  {
  }

  /**
   No alert comes from data on the safe side, and data on the other side is never
   missed.  A window in which every cell is NULL counts as one measured zero, so the
   first half holds exactly when some cell is not NULL, or zero itself is safe.
   */
  lemma AlertsFollowData(d: Device, since: int, q: Query, c: real)
    requires d.alert.Some? && d.alert.value.threshold == Some(c)
    ensures Measured(d, since, q) ==> Queryable(d, q)
    ensures Measured(d, since, q) && d.alert.value.operator == "above" ==> (
              var values := WindowValues(d, since, q);
              && (values != [] && AllAbove(values, c) ==> Firing(d, since, q).Some?)
              && ((Firing(d, since, q).Some? ==> SomeAbove(values, c)) <==> values != [] || c >= 0.0))
    ensures Measured(d, since, q) && d.alert.value.operator == "below" ==> (
              var values := WindowValues(d, since, q);
              && (values != [] && AllBelow(values, c) ==> Firing(d, since, q).Some?)
              && ((Firing(d, since, q).Some? ==> SomeBelow(values, c)) <==> values != [] || c <= 0.0))
  {
    if Measured(d, since, q) {
      MeasuredAverage(d, since, q);
      var values := WindowValues(d, since, q);
      if values != [] {
        AverageBrackets(values, c);
      }
    }
  }

  /** By how many the threshold counts against the sum of the values; without any, one zero is taken. */
  function Weight(values: seq<real>): real {
    if values == [] then 1.0 else |values| as real
  }

  lemma SumDecides(values: seq<real>, c: real)
    ensures Average(values) == c <==> Sum(values) == c * Weight(values)
    ensures Average(values) > c <==> Sum(values) > c * Weight(values)
  {
    if values != [] {
      QuotientIs(Sum(values), |values| as real, c);
      QuotientAbove(Sum(values), |values| as real, c);
    }
  }

  lemma QuotientAbove(s: real, n: real, c: real)
    requires n > 0.0
    ensures s / n > c <==> s > c * n
  {
    assert s == (s / n) * n;
    if s / n > c {
      assert (s / n - c) * n > 0.0;
    } else {
      assert (c - s / n) * n >= 0.0;
    }
  }

  /** The condition, without any division: the sum of the values against the threshold for each of them. */
  predicate IsMetInSum(c: AlertCondition, values: seq<real>) {
    && c.threshold.Some?
    && var bound := c.threshold.value * Weight(values);
       (|| (c.operator == "above" && Sum(values) > bound)
        || (c.operator == "below" && Sum(values) < bound)
        || (c.operator in {"is", "equals"} && Sum(values) == bound))
  }

  lemma EvaluateInSum(values: seq<real>, c: AlertCondition)
    ensures Evaluate(Average(values), c) <==> IsMetInSum(c, values)
  {
    EvaluateIsMet(Average(values), c);
    if c.threshold.Some? {
      SumDecides(values, c.threshold.value);
    }
  }

  /**
   What fires is decided by the sum of the values in the window; any other operator and a
   threshold that is no number never do.
   */
  lemma FiringBySum(d: Device, since: int, q: Query, values: seq<real>)
    requires Measured(d, since, q) && Queryable(d, q) && values == WindowValues(d, since, q)
    ensures Firing(d, since, q).Some? <==> IsMetInSum(d.alert.value, values)
  {
    MeasuredAverage(d, since, q);
    EvaluateInSum(values, d.alert.value);
  }

  lemma {:induction false} SumOfEqual(values: seq<real>, x: real)
    requires forall i :: 0 <= i < |values| ==> values[i] == x
    ensures Sum(values) == x * |values| as real
  {
    if values != [] {
      var n := |values| - 1;
      SumOfEqual(values[..n], x);
      OneMoreOf(x, n);
    }
  }

  lemma OneMoreOf(x: real, n: nat)
    ensures x * n as real + x == x * (n + 1) as real
  {
  }

  lemma AverageOfEqual(values: seq<real>, x: real)
    requires values != [] && forall i :: 0 <= i < |values| ==> values[i] == x
    ensures Average(values) == x
  {
    SumOfEqual(values, x);
    QuotientIs(Sum(values), |values| as real, x);
  }

  /** Equal values fire exactly when each of them meets the condition. */
  lemma EqualValuesFire(d: Device, since: int, q: Query, values: seq<real>, x: real)
    requires Measured(d, since, q) && Queryable(d, q) && values == WindowValues(d, since, q)
    requires values != [] && forall i :: 0 <= i < |values| ==> values[i] == x
    ensures Firing(d, since, q).Some? <==> IsMet(d.alert.value, x)
  {
    AverageOfEqual(values, x);
    MeasuredAverage(d, since, q);
    EvaluateIsMet(x, d.alert.value);
  }

  // ---------------------------------------------------------------------- reported alerts

  /** The query found the device and its rows: row is the device's, and latest its latest reading. */
  predicate Read(d: Device, q: Query, row: DeviceRow, latest: Measurement) {
    && q.tables.Some? && KindOf(d.sensorType).Some? && Found(q.tables.value, d.name) == Some(row)
    && Queries.Latest(Rows(q.tables.value, KindOf(d.sensorType).value), row.id) == Some(latest)
  }

  /** An alert identifies the device as its resource does, and with the short address of its row. */
  predicate Identifies(a: AlertDevice, d: Device, row: DeviceRow) {
    && a.deviceId == d.name && a.deviceName == d.friendlyName && a.sensorType == d.sensorType
    && a.location == d.location && a.room == d.room && a.ieeeAddr == d.ieeeAddr
    && a.shortAddr == row.shortAddr
  }

  lemma FiringReads(d: Device, since: int, q: Query) returns (row: DeviceRow, latest: Measurement)
    requires Firing(d, since, q).Some?
    ensures Queryable(d, q) && Read(d, q, row, latest)
    ensures Firing(d, since, q) == Some(Value(row, Average(WindowValues(d, since, q)), latest.timestamp))
  {
    var t, k := q.tables.value, KindOf(d.sensorType).value;
    row := Found(t, d.name).value;
    ValueIffLatestInWindow(Rows(t, k), row, QueriedColumn(k, d.alert.value.measurement).value, SinceOf(q.now, since));
    latest := Queries.Latest(Rows(t, k), row.id).value;
  }

  /** x is the mean of the values, or zero if there are none. */
  predicate IsMean(x: real, values: seq<real>) {
    x * Weight(values) == Sum(values)
  }

  lemma AverageIsMean(values: seq<real>)
    ensures IsMean(Average(values), values)
  {
    SumDecides(values, Average(values));
  }

  lemma AlertStates(d: Device, f: Filters, q: Query, a: AlertDevice, v: CurrentValue)
    requires AlertFor(d, f, q) == Some(a) && Firing(d, f.since, q) == Some(v)
    ensures v.Value? && Identifies(a, d, v.device) && a.currentValue == v.value && a.lastMeasurement == v.last
    ensures d.alert == Some(a.condition) && Evaluate(v.value, a.condition)
  {
  }

  /**
   What a reported alert says: whose it is, the mean of the values in the window, the time
   of the latest reading, and the device's condition, which that value meets.
   */
  lemma ReportedAlert(d: Device, f: Filters, q: Query, a: AlertDevice) returns (row: DeviceRow, latest: Measurement)
    requires AlertFor(d, f, q) == Some(a)
    ensures Queryable(d, q) && Read(d, q, row, latest)
    ensures Identifies(a, d, row) && IsMean(a.currentValue, WindowValues(d, f.since, q)) && a.lastMeasurement == latest.timestamp
    ensures d.alert == Some(a.condition) && IsMet(a.condition, a.currentValue)
  {
    row, latest := FiringReads(d, f.since, q);
    AlertStates(d, f, q, a, Firing(d, f.since, q).value);
    AverageIsMean(WindowValues(d, f.since, q));
    EvaluateIsMet(a.currentValue, a.condition);
  }

  /** A device whose database, row or measurements cannot be read raises no alert. */
  lemma FailedReadsRaiseNothing(d: Device, f: Filters, q: Query)
    requires q.tables.None? || q.faults.device || q.faults.measurements || Found(q.tables.value, d.name).None?
    ensures AlertFor(d, f, q) == None
  {
  }

  /** The devices that are reported are exactly those that fire and equal the filters that are not empty. */
  lemma ReportedAreWanted(devices: seq<Device>, f: Filters, queries: seq<Query>, at: seq<nat>, i: nat)
    requires |queries| == |devices| && i < |devices|
    requires IsExact(AlertsOf(devices, f, queries), Triggered(devices, f, queries), at)
    ensures i in at <==> var d := devices[i];
              && (f.deviceName == "" || d.name == f.deviceName) && (f.deviceType == "" || d.sensorType == f.deviceType)
              && (f.location == "" || d.location == f.location) && (f.room == "" || d.room == f.room)
              && Firing(d, f.since, queries[i]).Some?
  {
    ExactIff(AlertsOf(devices, f, queries), Triggered(devices, f, queries), at, i);
  }

  // ----------------------------------------------------------------------- service

  /** The query for a type reads some database that is listed for it, and none only if there is none. */
  ghost predicate MayRead(m: Manager, sensorType: string, tables: Option<Tables>)
    reads m`connections, set c | c in m.connections.Values :: c.db.database
  {
    match tables
    case None => !IsListed(m, sensorType)
    case Some(t) =>
      exists key :: key in m.connections && Lists(m.connections[key].database, sensorType)
                    && m.connections[key].db.database.Contents() == t
  }

  ghost predicate MayMeet(m: Manager, sensorType: string, q: Query, now: int, faults: ReadFaults)
    reads m`connections, set c | c in m.connections.Values :: c.db.database
  {
    q.now == now && q.faults == faults && MayRead(m, sensorType, q.tables)
  }

  /** The queries for the first devices of a list. */
  ghost predicate MayMeetAll(m: Manager, devices: seq<Device>, queries: seq<Query>, clock: nat -> int, faults: nat -> ReadFaults)
    reads m`connections, set c | c in m.connections.Values :: c.db.database
  {
    |queries| <= |devices|
    && forall i :: 0 <= i < |queries| ==> MayMeet(m, devices[i].sensorType, queries[i], clock(i), faults(i))
  }

  lemma OneMoreMet(m: Manager, devices: seq<Device>, queries: seq<Query>, clock: nat -> int, faults: nat -> ReadFaults, q: Query)
    requires MayMeetAll(m, devices, queries, clock, faults) && |queries| < |devices|
    requires MayMeet(m, devices[|queries|].sensorType, q, clock(|queries|), faults(|queries|))
    ensures MayMeetAll(m, devices, queries + [q], clock, faults)
  {
  }

  lemma OneMoreTriggered(devices: seq<Device>, f: Filters, queries: seq<Query>, q: Query, alert: Option<AlertDevice>)
    requires |queries| < |devices| && alert == AlertFor(devices[|queries|], f, q)
    ensures var n := |queries|;
            Triggered(devices[..n + 1], f, queries + [q])
            == if alert.Some? then Triggered(devices[..n], f, queries) + [alert.value] else Triggered(devices[..n], f, queries)
  {
    var n := |queries|;
    ZipAppend(devices[..n], queries, AlertUnder(f), devices[n], q);
    assert devices[..n] + [devices[n]] == devices[..n + 1];
    CollectAppend(AlertsOf(devices[..n], f, queries), alert);
  }

  lemma SomeQuery(m: Manager, sensorType: string, now: int, faults: ReadFaults) returns (q: Query)
    ensures MayMeet(m, sensorType, q, now, faults)
  {
    if key :| key in m.connections && Lists(m.connections[key].database, sensorType) {
      q := Query(Some(m.connections[key].db.database.Contents()), now, faults);
    } else {
      q := Query(None, now, faults);
    }
  }

  /** A registered pool is open, and GetDBForSensorType returns a listed one. */
  lemma ReadPoolIsOpen(m: Manager, sensorType: string, db: Pool)
    requires Steady(m)
    requires exists key :: key in m.connections && Lists(m.connections[key].database, sensorType) && db == m.connections[key].db
    ensures db.open && MayRead(m, sensorType, Some(db.database.Contents()))
  {
    var key :| key in m.connections && Lists(m.connections[key].database, sensorType) && db == m.connections[key].db;
    var s := m.State();
    assert s.connections[key] == m.connections[key].View();
    assert m.pools[db.id] == db;
  }

  /** If at most one connection lists the type it is fixed what is read. */
  lemma ReadIsUnique(m: Manager, sensorType: string, a: Option<Tables>, b: Option<Tables>)
    requires Steady(m) && AtMostOneLists(m.State(), sensorType) && MayRead(m, sensorType, a) && MayRead(m, sensorType, b)
    ensures a == b
  {
    if a.Some? && b.Some? {
      var k :| k in m.connections && Lists(m.connections[k].database, sensorType) && m.connections[k].db.database.Contents() == a.value;
      var l :| l in m.connections && Lists(m.connections[l].database, sensorType) && m.connections[l].db.database.Contents() == b.value;
      RouteIsUnique(m, sensorType, m.connections[k].db.database, m.connections[l].db.database);
    }
  }

  class AlertsService {
    const dbManager: Manager

    constructor (dbManager: Manager)
      ensures this.dbManager == dbManager
    {
      this.dbManager := dbManager;
    }

    /** The average of a column and the last time in the window of one device. */
    method ScanAverage(rows: seq<Measurement>, device: DeviceRow, column: Option<Column>, since: int, fails: bool)
      returns (v: CurrentValue)
      ensures v == if fails || column.None? then Failed else AverageIn(rows, device, column.value, since)
    {
      if fails || column.None? {
        return Failed;
      }
      var window := Window(rows, device.id, since);
      var avgValue := Average(Values(window, column.value));
      var lastTimestamp := Last(window);
      if lastTimestamp.None? {
        return NoValue;
      }
      v := Value(device, avgValue, lastTimestamp.value);
    }

    /** The switch over the sensor types. */
    method GetAverageMeasurement(db: Database, device: DeviceRow, sensorType: string, column: Kind -> Option<Column>,
                                 sinceTime: int, fails: bool)
      returns (v: CurrentValue)
      ensures v == AverageMeasurement(db.Contents(), device, sensorType, column, sinceTime, fails)
    {
      if sensorType == "moisture" {
        assert KindOf(sensorType) == Some(Moisture);
        v := ScanAverage(db.moisture, device, column(Moisture), sinceTime, fails);
      } else if sensorType == "valve" {
        assert KindOf(sensorType) == Some(Valve);
        v := ScanAverage(db.valve, device, column(Valve), sinceTime, fails);
      } else if sensorType == "water_level" {
        assert KindOf(sensorType) == Some(WaterLevel);
        v := ScanAverage(db.waterLevel, device, column(WaterLevel), sinceTime, fails);
      } else if sensorType == "room" {
        assert KindOf(sensorType) == Some(Room);
        v := ScanAverage(db.room, device, column(Room), sinceTime, fails);
      } else {
        v := Failed;
      }
    }

    /** The same once the database is known. */
    method GetMeasurementFrom(db: Database, deviceId: string, sensorType: string, column: Kind -> Option<Column>,
                              since: int, now: int, faults: ReadFaults)
      returns (v: CurrentValue)
      ensures v == MeasurementIn(db.Contents(), deviceId, sensorType, column, SinceOf(now, since), faults)
    {
      var device := DeviceIn(db.Contents(), deviceId, faults.device);
      if device.None? {
        return Failed;
      }
      var sinceTime := SinceOf(now, since);
      v := GetAverageMeasurement(db, device.value, sensorType, column, sinceTime, faults.measurements);
    }

    /** q is what the query met; with several databases for the type it is any of them. */
    method GetMeasurementValue(deviceId: string, sensorType: string, field: string, since: int, now: int, faults: ReadFaults)
      returns (v: CurrentValue, ghost q: Query)
      requires Steady(dbManager)
      ensures MayMeet(dbManager, sensorType, q, now, faults) && v == MeasurementValue(q, deviceId, sensorType, field, since)
    {
      var db := dbManager.GetDBForSensorType(sensorType);
      if db == null {
        return Failed, Query(None, now, faults);
      }
      ReadPoolIsOpen(dbManager, sensorType, db);
      q := Query(Some(db.database.Contents()), now, faults);
      if !db.open {
        return Failed, q;
      }
      var column := k => QueriedColumn(k, field);
      v := GetMeasurementFrom(db.database, deviceId, sensorType, column, since, now, faults);
    }

    /** Measure a device, test the time of its last measurement, and evaluate its condition. */
    method GetFiringValue(device: Device, since: int, start: int, now: int, faults: ReadFaults)
      returns (r: Option<CurrentValue>, ghost q: Query)
      requires Steady(dbManager) && device.alert.Some? && !device.disabled && now >= start
      ensures MayMeet(dbManager, device.sensorType, q, now, faults) && r == Firing(device, since, q)
    {
      var condition := device.alert.value;
      var v: CurrentValue;
      v, q := GetMeasurementValue(device.name, device.sensorType, condition.measurement, since, now, faults);
      if v.Failed? {
        return None, q;
      }
      if v.NoValue? {
        return None, q;
      }
      if since > 0 {
        LateTestNeverRemoves(q, device.name, device.sensorType, condition.measurement, since, start);
        if v.last < start - since {
          return None, q;
        }
      }
      if !Evaluate(v.value, condition) {
        return None, q;
      }
      r := Some(v);
    }

    /** One turn of the loop: the filters before the database is asked, and then the measured value. */
    method GetAlert(device: Device, filters: Filters, start: int, now: int, faults: ReadFaults)
      returns (r: Option<AlertDevice>, ghost q: Query)
      requires Steady(dbManager) && now >= start
      ensures MayMeet(dbManager, device.sensorType, q, now, faults) && r == AlertFor(device, filters, q)
    {
      q := SomeQuery(dbManager, device.sensorType, now, faults);
      if device.alert.None? || device.disabled {
        return None, q;
      }
      if filters.deviceName != "" && device.name != filters.deviceName {
        return None, q;
      }
      if filters.deviceType != "" && device.sensorType != filters.deviceType {
        return None, q;
      }
      if filters.location != "" && device.location != filters.location {
        return None, q;
      }
      if filters.room != "" && device.room != filters.room {
        return None, q;
      }
      var v: Option<CurrentValue>;
      v, q := GetFiringValue(device, filters.since, start, now, faults);
      if v.None? {
        return None, q;
      }
      r := Some(AlertOf(device, v.value));
    }

    /** The next device of the loop. */
    method GetNextAlert(devices: seq<Device>, filters: Filters, start: int, clock: nat -> int, faults: nat -> ReadFaults,
                        ghost queries: seq<Query>, i: nat)
      returns (alert: Option<AlertDevice>, ghost q: Query)
      requires Steady(dbManager) && clock(i) >= start
      requires i == |queries| < |devices| && MayMeetAll(dbManager, devices, queries, clock, faults)
      ensures MayMeetAll(dbManager, devices, queries + [q], clock, faults)
      ensures alert == AlertFor(devices[i], filters, q)
    {
      alert, q := GetAlert(devices[i], filters, start, clock(i), faults(i));
      OneMoreMet(dbManager, devices, queries, clock, faults, q);
    }

    /** The loop over all devices; queries says what each of them met. */
    method CollectAlerts(devices: seq<Device>, filters: Filters, start: int, clock: nat -> int, faults: nat -> ReadFaults)
      returns (alertDevices: seq<AlertDevice>, ghost queries: seq<Query>)
      requires Steady(dbManager) && forall i: nat :: clock(i) >= start
      ensures |queries| == |devices| && alertDevices == Triggered(devices, filters, queries)
      ensures MayMeetAll(dbManager, devices, queries, clock, faults)
    {
      alertDevices, queries := [], [];
      for i := 0 to |devices|
        invariant |queries| == i && alertDevices == Triggered(devices[..i], filters, queries)
        invariant MayMeetAll(dbManager, devices, queries, clock, faults)
      {
        var alert: Option<AlertDevice>;
        ghost var q: Query;
        alert, q := GetNextAlert(devices, filters, start, clock, faults, queries, i);
        OneMoreTriggered(devices, filters, queries, q, alert);
        queries := queries + [q];
        if alert.None? {
          continue;
        }
        alertDevices := alertDevices + [alert.value];
      }
      assert devices[..|devices|] == devices;
    }

    /**
     All triggered alerts: those of the specification, for what the queries met.  The
     clock does not go back behind its first reading.
     */
    method GetTriggeredAlerts(devices: seq<Device>, filters: Filters, listFails: bool,
                              start: int, clock: nat -> int, faults: nat -> ReadFaults)
      returns (r: Result<seq<AlertDevice>>, ghost queries: seq<Query>)
      requires Steady(dbManager) && forall i: nat :: clock(i) >= start
      ensures listFails ==> r == Failure
      ensures !listFails ==>
                && |queries| == |devices| && r == Success(Triggered(devices, filters, queries))
                && MayMeetAll(dbManager, devices, queries, clock, faults)
    {
      if listFails {
        return Failure, [];
      }
      var alertDevices: seq<AlertDevice>;
      alertDevices, queries := CollectAlerts(devices, filters, start, clock, faults);
      r := Success(alertDevices);
    }
  }
}
