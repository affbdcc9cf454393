/**
 Stores that run at the same time.  The manager routes under a read lock, so
 between the lookup of one store and the rest of it other stores may run; the
 unique index on device ids decides what becomes of the tables.
 */
module ConcurrentStores {
  import opened Common
  import opened Names
  import opened Tables
  import Telemetry

  /** A store between its lookup and the rest: the device row as it was found. */
  datatype Pending = Pending(job: Job, found: Option<DeviceRow>)

  datatype System = System(tables: Tables, pending: seq<Pending>)

  datatype Step = Lookup(job: Job) | Finish(i: nat)

  /** The rest of a store, with the row that its lookup found; the index refuses a second row for a device id. */
  function FinishStore(t: Tables, s: Pending, indexed: bool): (Tables, bool) {
    var j := s.job;
    match s.found
    case None =>
      if j.faults.createDevice || (indexed && Found(t, j.deviceId).Some?) then (t, false)
      else InsertInto(Created(t, j.kind, j.deviceId, j.payload), t.nextId, j)
    case Some(row) => InsertInto(Updated(t, row, j.payload, j.faults), row.id, j)
  }

  function InsertInto(t: Tables, id: nat, j: Job): (Tables, bool) {
    if j.faults.measurement then (t, false) else (Insert(t, j.kind, id, j.payload, j.now, j.faults), true)
  }

  /** Steps that are not possible do nothing. */
  function Next(s: System, step: Step, indexed: bool): System {
    match step
    case Lookup(j) => if j.faults.query then s else s.(pending := s.pending + [Pending(j, Found(s.tables, j.deviceId))])
    case Finish(i) =>
      if i >= |s.pending| then s
      else System(FinishStore(s.tables, s.pending[i], indexed).0, s.pending[..i] + s.pending[i + 1..])
  }

  function RunSteps(s: System, steps: seq<Step>, indexed: bool): System
    decreases |steps|
  {
    if steps == [] then s else RunSteps(Next(s, steps[0], indexed), steps[1..], indexed)
  }

  /** Without interleaving this is the atomic store, index or not. */
  lemma AtomicIsStore(t: Tables, j: Job, indexed: bool)
    ensures Store(t, j.kind, j.deviceId, j.payload, j.now, j.faults)
         == if j.faults.query then (t, false) else FinishStore(t, Pending(j, Found(t, j.deviceId)), indexed)
  {
  }

  // ------------------------------------------------------------------ all interleavings

  ghost predicate PendingHolds(t: Tables, s: Pending) {
    s.found.Some? ==> RowHolds(t, s.found.value)
  }

  ghost predicate Inv(s: System) {
    Sound(s.tables) && forall i :: 0 <= i < |s.pending| ==> PendingHolds(s.tables, s.pending[i])
  }

  lemma KeepsPending(t: Tables, t': Tables, s: Pending)
    requires KeepsDevices(t, t') && PendingHolds(t, s)
    ensures PendingHolds(t', s)
  {
    if s.found.Some? {
      var row := s.found.value;
      var i :| 0 <= i < |t.devices| && t.devices[i].id == row.id && t.devices[i].deviceId == row.deviceId;
      assert t'.devices[i].id == row.id && t'.devices[i].deviceId == row.deviceId;
    }
  }

  lemma InsertIntoSound(t: Tables, id: nat, j: Job)
    requires Sound(t) && KnownId(t, id)
    ensures Sound(InsertInto(t, id, j).0) && InsertInto(t, id, j).0.devices == t.devices
  {
    InsertSound(t, j.kind, id, j.payload, j.now, j.faults);
    InsertShape(t, j.kind, id, j.payload, j.now, j.faults);
  }

  /** The rest of a store creates a row for a device id that has one by now. */
  ghost predicate CreatesAgain(t: Tables, s: Pending) {
    s.found.None? && !s.job.faults.createDevice && Found(t, s.job.deviceId).Some?
  }

  lemma FinishSound(t: Tables, s: Pending, indexed: bool)
    requires Sound(t) && PendingHolds(t, s)
    ensures var t' := FinishStore(t, s, indexed).0;
            && Sound(t') && KeepsDevices(t, t')
            && (DistinctDeviceIds(t'.devices) <==> DistinctDeviceIds(t.devices) && (indexed || !CreatesAgain(t, s)))
  {
    var j := s.job;
    match s.found
    case None =>
      if !(j.faults.createDevice || (indexed && Found(t, j.deviceId).Some?)) {
        CreatedSound(t, j.kind, j.deviceId, j.payload);
        InsertIntoSound(Created(t, j.kind, j.deviceId, j.payload), t.nextId, j);
      }
    case Some(row) =>
      UpdatedSound(t, row, j.payload, j.faults);
      InsertIntoSound(Updated(t, row, j.payload, j.faults), row.id, j);
  }

  /** The step finishes a store that creates a device again. */
  ghost predicate Collides(s: System, step: Step) {
    step.Finish? && step.i < |s.pending| && CreatesAgain(s.tables, s.pending[step.i])
  }

  lemma NextInv(s: System, step: Step, indexed: bool)
    requires Inv(s)
    ensures var s' := Next(s, step, indexed);
            && Inv(s')
            && (DistinctDeviceIds(s'.tables.devices) <==>
                DistinctDeviceIds(s.tables.devices) && (indexed || !Collides(s, step)))
  {
    var s' := Next(s, step, indexed);
    match step
    case Lookup(j) =>
      assert Found(s.tables, j.deviceId).Some? ==> RowHolds(s.tables, Found(s.tables, j.deviceId).value);
    case Finish(i) =>
      if i < |s.pending| {
        FinishSound(s.tables, s.pending[i], indexed);
        forall k | 0 <= k < |s'.pending| ensures PendingHolds(s'.tables, s'.pending[k]) {
          KeepsPending(s.tables, s'.tables, if k < i then s.pending[k] else s.pending[k + 1]);
        }
      }
  }

  /** Some step of the run creates a device again. */
  ghost predicate CollidesInRun(s: System, steps: seq<Step>, indexed: bool)
    decreases |steps|
  {
    steps != [] && (Collides(s, steps[0]) || CollidesInRun(Next(s, steps[0], indexed), steps[1..], indexed))
  }

  lemma {:induction false} RunInv(s: System, steps: seq<Step>, indexed: bool)
    requires Inv(s)
    ensures var end := RunSteps(s, steps, indexed);
            && Inv(end)
            && (DistinctDeviceIds(end.tables.devices) <==>
                DistinctDeviceIds(s.tables.devices) && (indexed || !CollidesInRun(s, steps, indexed)))
    decreases |steps|
  {
    if steps != [] {
      NextInv(s, steps[0], indexed);
      RunInv(Next(s, steps[0], indexed), steps[1..], indexed);
    }
  }

  /**
   Every interleaving of any stores, failing ones included, keeps keys unique, texts
   clean and references intact, with or without the index.  Device ids stay unique,
   too, if and only if there is an index or no store of the run creates a device that
   another one has created since its lookup.
   */
  lemma InterleavingsAreValidIff(steps: seq<Step>, indexed: bool)
    ensures var start := System(EMPTY, []); var t := RunSteps(start, steps, indexed).tables;
            Sound(t) && (ValidTables(t) <==> indexed || !CollidesInRun(start, steps, indexed))
  {
    RunInv(System(EMPTY, []), steps, indexed);
  }

  // --------------------------------------------------------------- the name that is stored

  /**
   What a finished store leaves as the name of the row that its lookup found: the
   sanitised payload name, if and only if the row as it was found needed an update and
   that worked, or the row has the name by now.
   */
  lemma FinishedName(t: Tables, s: Pending, indexed: bool, name: string, i: nat)
    requires Sound(t) && PendingHolds(t, s) && GetText(s.job.payload, "Name") == Some(name) && name != ""
    requires s.found.Some? && i < |t.devices| && t.devices[i].id == s.found.value.id
    ensures var devices := FinishStore(t, s, indexed).0.devices;
            && |devices| == |t.devices| && devices[i].id == t.devices[i].id
            && (devices[i].name == SanitizeString(name) <==>
                (NeedsUpdate(s.found.value, s.job.payload) && !s.job.faults.save) || t.devices[i].name == SanitizeString(name))
  {
    var row, j := s.found.value, s.job;
    UpdateIsSanitize(row.name, j.payload, "Name");
    UpdatedSound(t, row, j.payload, j.faults);
    InsertIntoSound(Updated(t, row, j.payload, j.faults), row.id, j);
  }

  // ------------------------------------------------------------------ stores that do not overlap

  /** What the store has found is still what is there. */
  predicate UpToDate(t: Tables, p: Pending) {
    !p.job.faults.query && p.found == Found(t, p.job.deviceId)
  }

  ghost predicate ForDistinctDevices(pending: seq<Pending>) {
    forall i, j :: 0 <= i < j < |pending| ==> pending[i].job.deviceId != pending[j].job.deviceId
  }

  /** The pending stores are for distinct devices, and all up to date. */
  ghost predicate Current(s: System) {
    && ValidTables(s.tables) && ForDistinctDevices(s.pending)
    && forall i :: 0 <= i < |s.pending| ==> UpToDate(s.tables, s.pending[i])
  }

  /** The step does not look up a device that a pending store is for. */
  predicate Apart(s: System, step: Step) {
    step.Lookup? ==> forall i :: 0 <= i < |s.pending| ==> s.pending[i].job.deviceId != step.job.deviceId
  }

  /** In the whole run no two stores for one device overlap; those for different devices may in any way. */
  predicate NeverOverlaps(s: System, steps: seq<Step>, indexed: bool)
    decreases |steps|
  {
    steps != [] ==> Apart(s, steps[0]) && NeverOverlaps(Next(s, steps[0], indexed), steps[1..], indexed)
  }

  predicate Finishes(s: System, step: Step) {
    step.Finish? && step.i < |s.pending|
  }

  /** The stores that a run finishes, in the order in which it does. */
  function Finished(s: System, steps: seq<Step>, indexed: bool): seq<Job>
    decreases |steps|
  {
    if steps == [] then []
    else
      var later := Finished(Next(s, steps[0], indexed), steps[1..], indexed);
      if Finishes(s, steps[0]) then [s.pending[steps[0].i].job] + later else later
  }

  lemma FinishIsAfter(t: Tables, p: Pending, indexed: bool)
    requires UpToDate(t, p)
    ensures FinishStore(t, p, indexed).0 == After(t, p.job)
  {
    AtomicIsStore(t, p.job, indexed);
  }

  lemma StaysUpToDate(t: Tables, t': Tables, j: Job, p: Pending)
    requires ValidTables(t) && t' == After(t, j) && UpToDate(t, p) && p.job.deviceId != j.deviceId
    ensures UpToDate(t', p)
  {
    StoreKeepsFound(t, j.kind, j.deviceId, j.payload, j.now, j.faults, p.job.deviceId);
  }

  lemma AfterValid(t: Tables, j: Job)
    requires ValidTables(t)
    ensures ValidTables(After(t, j))
  {
    StoreValid(t, j.kind, j.deviceId, j.payload, j.now, j.faults);
  }

  lemma WithoutOne(pending: seq<Pending>, i: nat)
    requires i < |pending| && ForDistinctDevices(pending)
    ensures var rest := pending[..i] + pending[i + 1..];
            && ForDistinctDevices(rest)
            && forall k :: 0 <= k < |rest| ==> rest[k] in pending && rest[k].job.deviceId != pending[i].job.deviceId
  {
    var rest := pending[..i] + pending[i + 1..];
    forall k | 0 <= k < |rest| ensures rest[k] in pending && rest[k].job.deviceId != pending[i].job.deviceId {
      assert rest[k] == pending[if k < i then k else k + 1];
    }
  }

  lemma FinishCurrent(s: System, s': System, i: nat)
    requires Current(s) && i < |s.pending|
    requires s'.tables == After(s.tables, s.pending[i].job) && s'.pending == s.pending[..i] + s.pending[i + 1..]
    ensures Current(s')
  {
    var j := s.pending[i].job;
    AfterValid(s.tables, j);
    WithoutOne(s.pending, i);
    forall k | 0 <= k < |s'.pending| ensures UpToDate(s'.tables, s'.pending[k]) {
      StaysUpToDate(s.tables, s'.tables, j, s'.pending[k]);
    }
  }

  lemma NextCurrent(s: System, step: Step, indexed: bool)
    requires Current(s) && Apart(s, step)
    ensures var s' := Next(s, step, indexed);
            Current(s') && s'.tables == if Finishes(s, step) then After(s.tables, s.pending[step.i].job) else s.tables
  {
    if Finishes(s, step) {
      FinishIsAfter(s.tables, s.pending[step.i], indexed);
      FinishCurrent(s, Next(s, step, indexed), step.i);
    }
  }

  lemma {:induction false} RunIsSerial(s: System, steps: seq<Step>, indexed: bool)
    requires Current(s) && NeverOverlaps(s, steps, indexed)
    ensures RunSteps(s, steps, indexed).tables == Run(s.tables, Finished(s, steps, indexed))
    decreases |steps|
  {
    if steps != [] {
      var s' := Next(s, steps[0], indexed);
      NextCurrent(s, steps[0], indexed);
      RunIsSerial(s', steps[1..], indexed);
      if Finishes(s, steps[0]) {
        var j, later := s.pending[steps[0].i].job, Finished(s', steps[1..], indexed);
        assert ([j] + later)[1..] == later;
      }
    }
  }

  /**
   As long as no two stores for one device overlap, every interleaving leaves exactly the
   tables, with keys and times, that its stores leave one after the other in the order in
   which they finish.
   */
  lemma InterleavingIsSerial(t: Tables, steps: seq<Step>, indexed: bool)
    requires ValidTables(t) && NeverOverlaps(System(t, []), steps, indexed)
    ensures RunSteps(System(t, []), steps, indexed).tables == Run(t, Finished(System(t, []), steps, indexed))
  {
    RunIsSerial(System(t, []), steps, indexed);
  }

  /** So if the stores are for distinct devices, each device has received what its own store contributes alone. */
  lemma InterleavedViews(t: Tables, steps: seq<Step>, indexed: bool, k: nat)
    requires ValidTables(t) && NeverOverlaps(System(t, []), steps, indexed)
    requires var jobs := Finished(System(t, []), steps, indexed); k < |jobs| && Telemetry.DistinctTargets(jobs)
    ensures var j := Finished(System(t, []), steps, indexed)[k];
            ViewOf(RunSteps(System(t, []), steps, indexed).tables, j.deviceId)
            == Contribution(ViewOf(t, j.deviceId), j.kind, j.payload, j.faults)
  {
    InterleavingIsSerial(t, steps, indexed);
    Telemetry.TouchedView(t, Finished(System(t, []), steps, indexed), k);
  }

  // ------------------------------------------------------------------- stores that overlap

  /** Both stores look the device up before either goes on; then the one of them that is at position first does. */
  function Race(a: Job, b: Job, first: nat): seq<Step> {
    [Lookup(a), Lookup(b), Finish(first), Finish(0)]
  }

  predicate Healthy(j: Job) {
    j.faults == Faults(false, false, false, false, false, false)
  }

  lemma RaceResult(t: Tables, a: Job, b: Job, first: nat, indexed: bool)
    requires Healthy(a) && Healthy(b) && first <= 1
    ensures var pa, pb := Pending(a, Found(t, a.deviceId)), Pending(b, Found(t, b.deviceId));
            RunSteps(System(t, []), Race(a, b, first), indexed).tables
            == if first == 0 then FinishStore(FinishStore(t, pa, indexed).0, pb, indexed).0
               else FinishStore(FinishStore(t, pb, indexed).0, pa, indexed).0
  {
    var pa, pb := Pending(a, Found(t, a.deviceId)), Pending(b, Found(t, b.deviceId));
    var s1, s2 := System(t, [pa]), System(t, [pa, pb]);
    var s3 := if first == 0 then System(FinishStore(t, pa, indexed).0, [pb]) else System(FinishStore(t, pb, indexed).0, [pa]);
    assert Next(System(t, []), Lookup(a), indexed) == s1;
    assert Next(s1, Lookup(b), indexed) == s2;
    assert Next(s2, Finish(first), indexed) == s3;
    var rest := [Finish(0)];
    assert RunSteps(s3, rest, indexed) == RunSteps(Next(s3, Finish(0), indexed), [], indexed);
    assert [Finish(first), Finish(0)][1..] == rest;
    assert RunSteps(s2, [Finish(first), Finish(0)], indexed) == RunSteps(s3, rest, indexed);
    assert [Lookup(b), Finish(first), Finish(0)][1..] == [Finish(first), Finish(0)];
    assert Race(a, b, first)[1..] == [Lookup(b), Finish(first), Finish(0)];
  }

  /**
   The index is needed: without it, two first stores for one device that overlap
   leave two rows with its device id.  With it the later one fails, and its
   measurement is lost although the device exists by then.
   */
  lemma OverlappingFirstStores(t: Tables, a: Job, b: Job)
    requires ValidTables(t) && Healthy(a) && Healthy(b) && a.deviceId == b.deviceId && Found(t, a.deviceId).None?
    ensures !ValidTables(RunSteps(System(t, []), Race(a, b, 0), false).tables)
    ensures RunSteps(System(t, []), Race(a, b, 0), true).tables
         == Store(t, a.kind, a.deviceId, a.payload, a.now, a.faults).0
  {
    RaceResult(t, a, b, 0, false);
    RaceResult(t, a, b, 0, true);
    var once := Created(t, a.kind, a.deviceId, a.payload);
    var t1 := InsertInto(once, t.nextId, a).0;
    InsertShape(once, a.kind, t.nextId, a.payload, a.now, a.faults);
    var twice := Created(t1, b.kind, b.deviceId, b.payload);
    InsertShape(twice, b.kind, t1.nextId, b.payload, b.now, b.faults);
    var n := |t.devices|;
    assert twice.devices[n].deviceId == a.deviceId && twice.devices[n + 1].deviceId == a.deviceId;
    assert t1.devices[n].deviceId == a.deviceId;
    AtomicIsStore(t, a, true);
  }

  /** A store that carries the name the row has, and nothing else that differs from it. */
  predicate CarriesOldName(row: DeviceRow, j: Job) {
    row.name != "" && GetText(j.payload, "Name") == Some(row.name) && !NeedsUpdate(row, j.payload)
  }

  /**
   A store that finishes last does not always leave its name: with a lookup from before
   another store changed the name it does not write at all, and all statements succeed.
   */
  lemma StaleLookupKeepsOtherName(t: Tables, a: Job, b: Job, indexed: bool, i: nat, name: string)
    requires ValidTables(t) && Healthy(a) && Healthy(b) && a.deviceId == b.deviceId
    requires IndexOf(t.devices, a.deviceId) == Some(i) && CarriesOldName(t.devices[i], a)
    requires GetText(b.payload, "Name") == Some(name) && name != "" && SanitizeString(name) != t.devices[i].name
    ensures var mid, pa := FinishStore(t, Pending(b, Some(t.devices[i])), indexed).0, Pending(a, Some(t.devices[i]));
            var devices := RunSteps(System(t, []), Race(a, b, 1), indexed).tables.devices;
            && FinishStore(mid, pa, indexed).1
            && |devices| == |t.devices| && devices[i].name == SanitizeString(name) != SanitizeString(t.devices[i].name)
  {
    var row := t.devices[i];
    var pa, pb := Pending(a, Some(row)), Pending(b, Some(row));
    var mid := FinishStore(t, pb, indexed).0;
    RaceResult(t, a, b, 1, indexed);
    assert RowHolds(t, row);
    SanitizeStringFixedPoints(row.name);
    FinishSound(t, pb, indexed);
    FinishedName(t, pb, indexed, name, i);
    KeepsPending(t, mid, pa);
    UpdatedSound(mid, row, a.payload, a.faults);
    InsertIntoSound(Updated(mid, row, a.payload, a.faults), row.id, a);
  }
}
