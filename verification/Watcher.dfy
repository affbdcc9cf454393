/**
 The database watcher between the cluster and the manager: events, filter, work
 queue and reconciles that fall into a read and a connect, as a state machine.
 A work item is held at most once: dirty until a worker takes it, and again when it
 is added while a worker holds it; an item that failed is added again later.
 */
module Watcher {
  import opened Common
  import opened Handlers
  import opened Connections
  import opened Manager

  /** A Database resource; the generation belongs to the spec, not to the status. */
  datatype Resource = Resource(spec: Spec, generation: nat, status: string)

  type Cluster = map<NamespacedName, Resource>

  datatype Event =
    | Created(n: NamespacedName, after: Resource)
    | Updated(n: NamespacedName, before: Resource, after: Resource)
    | Deleted(n: NamespacedName)
    | Generic(n: NamespacedName)

  // ----------------------------------------------------------------------- filter

  /** The update filter; None stands for an object of another kind. */
  predicate UpdateFunc(before: Option<Resource>, after: Option<Resource>) {
    if before.None? || after.None? then false else before.value.generation != after.value.generation
  }

  /** Which events the filter lets through to the work queue. */
  predicate Passes(e: Event) {
    match e
    case Created(_, _) => true
    case Updated(_, before, after) => UpdateFunc(Some(before), Some(after))
    case Deleted(_) => false
    case Generic(_) => false
  }

  // ------------------------------------------------------------------------ world

  /** What the informer cache becomes when it handles an event. */
  function Apply(c: Cluster, e: Event): Cluster {
    match e
    case Created(n, r) => c[n := r]
    case Updated(n, _, r) => c[n := r]
    case Deleted(n) => c - {n}
    case Generic(_) => c
  }

  function ApplyAll(c: Cluster, events: seq<Event>): Cluster
    decreases |events|
  {
    if events == [] then c else ApplyAll(Apply(c, events[0]), events[1..])
  }

  datatype World = World(
    store: Cluster,                       // the API server
    events: seq<Event>,                   // on their way to the informer
    cache: Cluster,                       // what a Get returns
    dirty: set<NamespacedName>,           // work items to be done
    started: set<NamespacedName>,         // reconciles that have not read yet
    read: map<NamespacedName, Spec>,      // reconciles that have read, and what
    retry: set<NamespacedName>,           // failed items waiting to be added again
    manager: ManagerState)

  datatype Step =
    | Create(n: NamespacedName, spec: Spec)
    | SetSpec(n: NamespacedName, spec: Spec)
    | SetStatus(n: NamespacedName, status: string)
    | Delete(n: NamespacedName)
    | Poke(n: NamespacedName)
    | Deliver
    | Retry(n: NamespacedName)
    | Start(n: NamespacedName)
    | Read(n: NamespacedName, fails: bool)
    | Callback(n: NamespacedName, outcome: Outcome)

  predicate Enabled(w: World, step: Step) {
    match step
    case Create(n, _) => n !in w.store
    case SetSpec(n, _) => n in w.store
    case SetStatus(n, _) => n in w.store
    case Delete(n) => n in w.store
    case Poke(_) => true
    case Deliver => w.events != []
    case Retry(n) => n in w.retry
    case Start(n) => n in w.dirty && n !in w.started && n !in w.read
    case Read(n, _) => n in w.started
    case Callback(n, _) => n in w.read
  }

  /** A change in the cluster and the event it causes. */
  function Emit(w: World, e: Event): World {
    w.(store := Apply(w.store, e), events := w.events + [e])
  }

  function WithSpec(r: Resource, spec: Spec): Resource {
    r.(spec := spec, generation := if r.spec == spec then r.generation else r.generation + 1)
  }

  function Next(w: World, step: Step): World
    requires Enabled(w, step)
  {
    match step
    case Create(n, spec) => Emit(w, Created(n, Resource(spec, 1, "")))
    case SetSpec(n, spec) => Emit(w, Updated(n, w.store[n], WithSpec(w.store[n], spec)))
    case SetStatus(n, status) => Emit(w, Updated(n, w.store[n], w.store[n].(status := status)))
    case Delete(n) => Emit(w, Deleted(n))
    case Poke(n) => Emit(w, Generic(n))
    case Deliver =>
      var e := w.events[0];
      w.(cache := Apply(w.cache, e), events := w.events[1..],
         dirty := if Passes(e) then w.dirty + {e.n} else w.dirty)
    case Retry(n) => w.(retry := w.retry - {n}, dirty := w.dirty + {n})
    case Start(n) => w.(dirty := w.dirty - {n}, started := w.started + {n})
    case Read(n, fails) =>
      if fails then w.(started := w.started - {n}, retry := w.retry + {n})
      else if n !in w.cache then w.(started := w.started - {n})
      else w.(started := w.started - {n}, read := w.read[n := w.cache[n].spec])
    case Callback(n, o) =>
      w.(manager := ConnectState(w.manager, Key(n), w.read[n], o), read := w.read - {n},
         retry := if o.Succeeds? then w.retry else w.retry + {n})
  }

  /** Steps in turn; one that is not possible when its turn comes does nothing. */
  function Run(w: World, steps: seq<Step>): World
    decreases |steps|
  {
    if steps == [] then w
    else Run(if Enabled(w, steps[0]) then Next(w, steps[0]) else w, steps[1..])
  }

  /** The process has just started: nothing is connected, and what exists is about to be listed. */
  ghost predicate Initial(w: World) {
    && w.cache == map[] && w.dirty == {} && w.started == {} && w.read == map[] && w.retry == {} && w.manager == INITIAL
    && Coherent(w.cache, w.events) && ApplyAll(w.cache, w.events) == w.store
  }

  // ------------------------------------------------------------------- invariants

  /** The event fits what was there before, and its generation differs exactly when the spec does. */
  ghost predicate Follows(c: Cluster, e: Event) {
    match e
    case Created(n, _) => n !in c
    case Updated(n, before, after) =>
      n in c && c[n] == before && (before.generation != after.generation <==> before.spec != after.spec)
    case Deleted(n) => n in c
    case Generic(_) => true
  }

  ghost predicate Coherent(c: Cluster, events: seq<Event>)
    decreases |events|
  {
    events == [] || (Follows(c, events[0]) && Coherent(Apply(c, events[0]), events[1..]))
  }

  /** An event that will add the item to the queue is on its way. */
  ghost predicate Triggers(events: seq<Event>, n: NamespacedName) {
    exists i :: 0 <= i < |events| && events[i].n == n && Passes(events[i])
  }

  /** Its registered connection holds exactly its current spec. */
  ghost predicate Converged(w: World, n: NamespacedName) {
    n in w.store && Key(n) in w.manager.connections && w.manager.connections[Key(n)].spec == w.store[n].spec
  }

  /** A read of the current spec is still to come. */
  ghost predicate ReadAhead(w: World, n: NamespacedName) {
    Triggers(w.events, n) || n in w.dirty || n in w.retry || n in w.started
  }

  /** A connect with the current spec is still to come. */
  ghost predicate Pending(w: World, n: NamespacedName) {
    ReadAhead(w, n) || (n in w.read && n in w.store && w.read[n] == w.store[n].spec)
  }

  /** A spec that was read too early will be read again. */
  ghost predicate OnTrack(w: World, n: NamespacedName) {
    n in w.store && (ReadAhead(w, n) || if n in w.read then w.read[n] == w.store[n].spec else Converged(w, n))
  }

  ghost predicate WatcherInv(w: World) {
    && Inv(w.manager)
    && Coherent(w.cache, w.events) && ApplyAll(w.cache, w.events) == w.store
    && forall n :: n in w.store ==> OnTrack(w, n)
  }

  lemma {:induction false} AppendEvent(c: Cluster, events: seq<Event>, e: Event)
    requires Coherent(c, events) && Follows(ApplyAll(c, events), e)
    ensures Coherent(c, events + [e]) && ApplyAll(c, events + [e]) == Apply(ApplyAll(c, events), e)
    decreases |events|
  {
    if events == [] {
      assert [e][1..] == [];
    } else {
      AppendEvent(Apply(c, events[0]), events[1..], e);
      assert (events + [e])[1..] == events[1..] + [e];
    }
  }

  lemma TriggersTail(events: seq<Event>, n: NamespacedName)
    requires events != []
    ensures Triggers(events[1..], n) ==> Triggers(events, n)
  {
    var rest := events[1..];
    if Triggers(rest, n) {
      var i :| 0 <= i < |rest| && rest[i].n == n && Passes(rest[i]);
      assert events[i + 1] == rest[i];
    }
  }

  /** Without a triggering event on its way, the cache holds the current spec. */
  lemma {:induction false} CacheIsCurrent(c: Cluster, events: seq<Event>, n: NamespacedName)
    requires Coherent(c, events) && !Triggers(events, n)
    requires n in ApplyAll(c, events)
    ensures n in c && c[n].spec == ApplyAll(c, events)[n].spec
    decreases |events|
  {
    if events != [] {
      var e, rest := events[0], events[1..];
      TriggersTail(events, n);
      CacheIsCurrent(Apply(c, e), rest, n);
    }
  }

  lemma EmitTriggers(w: World, e: Event, n: NamespacedName)
    ensures Triggers(w.events, n) ==> Triggers(w.events + [e], n)
    ensures e.n == n && Passes(e) ==> Triggers(w.events + [e], n)
  {
    if Triggers(w.events, n) {
      var i :| 0 <= i < |w.events| && w.events[i].n == n && Passes(w.events[i]);
      assert (w.events + [e])[i] == w.events[i];
    }
    assert (w.events + [e])[|w.events|] == e;
  }

  lemma EmitKeeps(w: World, e: Event)
    requires WatcherInv(w) && Follows(w.store, e)
    ensures WatcherInv(Emit(w, e))
  {
    var w' := Emit(w, e);
    AppendEvent(w.cache, w.events, e);
    forall n | n in w'.store ensures OnTrack(w', n) {
      EmitTriggers(w, e, n);
      if !Passes(e) || e.n != n {
        assert n in w.store && w'.store[n].spec == w.store[n].spec;
        assert OnTrack(w, n);
      }
    }
  }

  lemma DeliverKeeps(w: World)
    requires WatcherInv(w) && Enabled(w, Deliver)
    ensures WatcherInv(Next(w, Deliver))
  {
    var w' := Next(w, Deliver);
    forall n | n in w'.store ensures OnTrack(w', n) {
      if Triggers(w.events, n) {
        var i :| 0 <= i < |w.events| && w.events[i].n == n && Passes(w.events[i]);
        if i > 0 {
          assert w'.events[i - 1] == w.events[i];
        }
      }
    }
  }

  lemma ReadKeeps(w: World, n: NamespacedName, fails: bool)
    requires WatcherInv(w) && Enabled(w, Read(n, fails))
    ensures WatcherInv(Next(w, Read(n, fails)))
  {
    var w' := Next(w, Read(n, fails));
    if n in w.store && !Triggers(w.events, n) {
      CacheIsCurrent(w.cache, w.events, n);
    }
    forall m | m in w'.store ensures OnTrack(w', m) {
      assert OnTrack(w, m);
    }
  }

  lemma CallbackKeeps(w: World, n: NamespacedName, o: Outcome)
    requires WatcherInv(w) && Enabled(w, Callback(n, o))
    ensures WatcherInv(Next(w, Callback(n, o)))
  {
    var w' := Next(w, Callback(n, o));
    NextInv(w.manager, Connect(Key(n), w.read[n], o));
    ConnectFrame(w.manager, Key(n), w.read[n], o);
    forall m | m in w'.store ensures OnTrack(w', m) {
      assert OnTrack(w, m);
      if m != n && Key(m) == Key(n) {
        KeyInjective(m, n);
      }
    }
  }

  lemma NextKeeps(w: World, step: Step)
    requires WatcherInv(w) && Enabled(w, step)
    ensures WatcherInv(Next(w, step))
  {
    match step
    case Create(n, spec) => EmitKeeps(w, Created(n, Resource(spec, 1, "")));
    case SetSpec(n, spec) => EmitKeeps(w, Updated(n, w.store[n], WithSpec(w.store[n], spec)));
    case SetStatus(n, status) => EmitKeeps(w, Updated(n, w.store[n], w.store[n].(status := status)));
    case Delete(n) => EmitKeeps(w, Deleted(n));
    case Poke(n) => EmitKeeps(w, Generic(n));
    case Deliver => DeliverKeeps(w);
    case Read(n, fails) => ReadKeeps(w, n, fails);
    case Callback(n, o) => CallbackKeeps(w, n, o);
    case _ =>
      var w' := Next(w, step);
      forall m | m in w'.store ensures OnTrack(w', m) {
        assert OnTrack(w, m);
      }
  }

  lemma {:induction false} CoherentTriggers(c: Cluster, events: seq<Event>, n: NamespacedName)
    requires Coherent(c, events) && n !in c && n in ApplyAll(c, events)
    ensures Triggers(events, n)
  {
    if !Triggers(events, n) {
      CacheIsCurrent(c, events, n);
    }
  }

  lemma InitialInv(w: World)
    requires Initial(w)
    ensures WatcherInv(w)
  {
    forall n | n in w.store ensures OnTrack(w, n) {
      CoherentTriggers(w.cache, w.events, n);
    }
  }

  lemma {:induction false} RunKeeps(w: World, steps: seq<Step>)
    requires WatcherInv(w)
    ensures WatcherInv(Run(w, steps))
    decreases |steps|
  {
    if steps != [] {
      if Enabled(w, steps[0]) {
        NextKeeps(w, steps[0]);
        RunKeeps(Next(w, steps[0]), steps[1..]);
      } else {
        RunKeeps(w, steps[1..]);
      }
    }
  }

  /**
   In every reachable state every existing Database has a registered connection
   with exactly its current spec, or a connect with it is still to come; whatever
   lands between the read and the connect, and whatever the filter drops.
   */
  lemma ConvergedOrPending(w: World, steps: seq<Step>, n: NamespacedName)
    requires Initial(w) && n in Run(w, steps).store
    ensures Converged(Run(w, steps), n) || Pending(Run(w, steps), n)
  {
    InitialInv(w);
    RunKeeps(w, steps);
  }

  // ---------------------------------------------------------------------- draining

  ghost predicate Quiescent(w: World) {
    w.events == [] && w.dirty == {} && w.retry == {} && w.started == {} && w.read == map[]
  }

  /** A step of the watcher itself in which nothing fails. */
  predicate Healthy(step: Step) {
    || step.Deliver? || step.Retry? || step.Start?
    || (step.Read? && !step.fails) || (step.Callback? && step.outcome.Succeeds?)
  }

  /** How many healthy steps are possible at most. */
  function Work(w: World): nat {
    6 * |w.events| + 5 * |w.retry| + 4 * |w.dirty| + 2 * |w.started| + |w.read|
  }

  lemma AddOne<T>(s: set<T>, x: T)
    ensures |s + {x}| <= |s| + 1
  {
    if x in s {
      assert s + {x} == s;
    }
  }

  lemma RemoveOne<T>(s: set<T>, x: T)
    requires x in s
    ensures |s - {x}| == |s| - 1
  {
  }

  lemma MapSizes<K, V>(m: map<K, V>, k: K, v: V)
    ensures |m[k := v]| <= |m| + 1
    ensures k in m ==> |m - {k}| == |m| - 1
  {
    assert m[k := v].Keys == m.Keys + {k};
    assert (m - {k}).Keys == m.Keys - {k};
    AddOne(m.Keys, k);
    assert |m[k := v]| == |m[k := v].Keys| && |m| == |m.Keys| && |m - {k}| == |(m - {k}).Keys|;
  }

  lemma HealthyStepWorks(w: World, step: Step)
    requires Enabled(w, step) && Healthy(step)
    ensures Next(w, step).store == w.store && Work(Next(w, step)) < Work(w)
  {
    match step
    case Deliver =>
      AddOne(w.dirty, w.events[0].n);
    case Retry(n) =>
      RemoveOne(w.retry, n);
      AddOne(w.dirty, n);
    case Start(n) =>
      RemoveOne(w.dirty, n);
      AddOne(w.started, n);
    case Read(n, _) =>
      RemoveOne(w.started, n);
      if n in w.cache {
        MapSizes(w.read, n, w.cache[n].spec);
      }
    case Callback(n, _) =>
      MapSizes(w.read, n, w.read[n]);
  }

  /** Every step of the list is healthy and possible when its turn comes. */
  ghost predicate HealthyRun(w: World, steps: seq<Step>)
    decreases |steps|
  {
    steps == [] || (Healthy(steps[0]) && Enabled(w, steps[0]) && HealthyRun(Next(w, steps[0]), steps[1..]))
  }

  lemma {:induction false} HealthyRunIsShort(w: World, steps: seq<Step>)
    requires HealthyRun(w, steps)
    ensures Run(w, steps).store == w.store && |steps| + Work(Run(w, steps)) <= Work(w)
    decreases |steps|
  {
    if steps != [] {
      HealthyStepWorks(w, steps[0]);
      HealthyRunIsShort(Next(w, steps[0]), steps[1..]);
    }
  }

  /** While anything is left to do, some healthy step is possible. */
  lemma SomeStepIsEnabled(w: World) returns (step: Step)
    requires !Quiescent(w)
    ensures Healthy(step) && Enabled(w, step)
  {
    if w.events != [] {
      step := Deliver;
    } else if n :| n in w.retry {
      step := Retry(n);
    } else if n :| n in w.started {
      step := Read(n, false);
    } else if n :| n in w.read {
      step := Callback(n, Succeeds);
    } else {
      var n :| n in w.dirty;
      step := Start(n);
    }
  }

  /** Converged, through an open pool and with the handlers that its spec lists. */
  ghost predicate Serves(w: World, n: NamespacedName) {
    Converged(w, n)
    && var c := w.manager.connections[Key(n)];
       HandlersMatch(c) && c.pool < |w.manager.open| && w.manager.open[c.pool]
  }

  lemma QuiescentConverged(w: World, n: NamespacedName)
    requires WatcherInv(w) && Quiescent(w) && n in w.store
    ensures Serves(w, n)
  {
    assert OnTrack(w, n);
  }

  /**
   Once changes and failures stop, convergence is reached in bounded time and by
   any schedule: from every reachable state, steps that do not fail run out after
   at most Work of them, and when none is possible any more, every Database is
   connected through an open pool with its current spec and matching handlers.
   */
  lemma HealthyRunsConverge(w: World, steps: seq<Step>, healthy: seq<Step>, n: NamespacedName)
    requires Initial(w)
    requires HealthyRun(Run(w, steps), healthy)
    ensures |healthy| <= Work(Run(w, steps))
    ensures var end := Run(Run(w, steps), healthy);
            n in end.store && (forall step :: Healthy(step) ==> !Enabled(end, step)) ==> Serves(end, n)
  {
    var reached := Run(w, steps);
    var end := Run(reached, healthy);
    InitialInv(w);
    RunKeeps(w, steps);
    RunKeeps(reached, healthy);
    HealthyRunIsShort(reached, healthy);
    if (forall step :: Healthy(step) ==> !Enabled(end, step)) && n in end.store {
      if !Quiescent(end) {
        var step := SomeStepIsEnabled(end);
        assert false;
      }
      QuiescentConverged(end, n);
    }
  }

  // --------------------------------------------------------------- what the filter drops

  /** The work item that an event should add: a creation and a change of the spec have one. */
  predicate ChangesSpec(e: Event) {
    e.Created? || (e.Updated? && e.before.spec != e.after.spec)
  }

  /** Delivering an event adds exactly its item if it is a creation or changes the spec, and else leaves the queue as it is. */
  lemma DeliverAddsExactly(w: World)
    requires WatcherInv(w) && Enabled(w, Deliver)
    ensures var e := w.events[0];
            Next(w, Deliver) == w.(cache := Apply(w.cache, e), events := w.events[1..],
                                   dirty := if ChangesSpec(e) then w.dirty + {e.n} else w.dirty)
  {
    assert Follows(w.cache, w.events[0]);
  }

  /** Nothing is to be done, and nothing on its way will change that. */
  ghost predicate Silent(w: World) {
    && w.dirty == {} && w.retry == {} && w.started == {} && w.read == map[]
    && forall i :: 0 <= i < |w.events| ==> !Passes(w.events[i])
  }

  /** A status write, a deletion, a resync or a step of the watcher, but no creation and no write to a spec. */
  predicate KeepsSpecs(step: Step) {
    !step.Create? && !step.SetSpec?
  }

  lemma StaysSilent(w: World, step: Step)
    requires Silent(w) && Enabled(w, step) && KeepsSpecs(step)
    ensures Silent(Next(w, step)) && Next(w, step).manager == w.manager && !step.Callback?
  {
    var w' := Next(w, step);
    forall i | 0 <= i < |w'.events| ensures !Passes(w'.events[i]) {
      if w'.events != w.events && i < |w.events| && !step.Deliver? {
        assert w'.events[i] == w.events[i];
      }
    }
  }

  lemma {:induction false} SilentRun(w: World, steps: seq<Step>, n: NamespacedName)
    requires Silent(w) && forall i :: 0 <= i < |steps| ==> KeepsSpecs(steps[i])
    ensures Run(w, steps).manager == w.manager && LastConnect(w, steps, n) == None && Silent(Run(w, steps))
    decreases |steps|
  {
    if steps != [] {
      if Enabled(w, steps[0]) {
        StaysSilent(w, steps[0]);
        SilentRun(Next(w, steps[0]), steps[1..], n);
      } else {
        SilentRun(w, steps[1..], n);
      }
    }
  }

  /**
   From a world with nothing to do, status writes, deletions and resyncs, however many and
   whatever the watcher does between them, never connect anything: no pool is closed or
   opened, and no connection is touched.
   */
  lemma StatusWritesAreQuiet(w: World, steps: seq<Step>, n: NamespacedName)
    requires Quiescent(w) && forall i :: 0 <= i < |steps| ==> KeepsSpecs(steps[i])
    ensures Run(w, steps).manager == w.manager && LastConnect(w, steps, n) == None
    ensures !Enabled(Run(w, steps), Start(n)) && !Enabled(Run(w, steps), Retry(n))
  {
    SilentRun(w, steps, n);
  }

  /** An object of another kind is not looked at. */
  lemma ForeignUpdatesAreDropped(r: Option<Resource>)
    ensures !UpdateFunc(None, r) && !UpdateFunc(r, None)
  {
  }

  // -------------------------------------------------------------------- registration

  /** How the last connect for n in a run ended; None if there was none. */
  function LastConnect(w: World, steps: seq<Step>, n: NamespacedName): Option<Outcome>
    decreases |steps|
  {
    if steps == [] then None
    else
      var now := if Enabled(w, steps[0]) && steps[0].Callback? && steps[0].n == n then Some(steps[0].outcome) else None;
      var later := LastConnect(if Enabled(w, steps[0]) then Next(w, steps[0]) else w, steps[1..], n);
      if later.Some? then later else now
  }

  ghost predicate IsRegistered(w: World, n: NamespacedName) {
    Key(n) in w.manager.connections
  }

  lemma NextRegistered(w: World, step: Step, n: NamespacedName)
    requires Enabled(w, step)
    ensures IsRegistered(Next(w, step), n) <==>
              if step.Callback? && step.n == n then step.outcome.Succeeds? else IsRegistered(w, n)
  {
    if step.Callback? && step.n != n && Key(step.n) == Key(n) {
      KeyInjective(step.n, n);
    }
  }

  /**
   Nothing but connects decides what is registered: after any run from any world a
   Database has a connection if and only if its last connect succeeded, or there was
   none and it had one before.  Changes, events and deletions have no part in it.
   */
  lemma {:induction false} RegisteredIff(w: World, steps: seq<Step>, n: NamespacedName)
    ensures IsRegistered(Run(w, steps), n) <==>
              match LastConnect(w, steps, n)
              case None => IsRegistered(w, n)
              case Some(o) => o.Succeeds?
    decreases |steps|
  {
    if steps != [] {
      if Enabled(w, steps[0]) {
        NextRegistered(w, steps[0], n);
        RegisteredIff(Next(w, steps[0]), steps[1..], n);
      } else {
        RegisteredIff(w, steps[1..], n);
      }
    }
  }

  /** The watcher has nothing to do for n, now or from an event on its way. */
  ghost predicate Idle(w: World, n: NamespacedName) {
    !ReadAhead(w, n) && n !in w.read
  }

  /** n does not exist, and nothing will be done for it. */
  ghost predicate DeletedAndIdle(w: World, n: NamespacedName) {
    n !in w.store && Idle(w, n)
  }

  lemma TriggersAppend(events: seq<Event>, e: Event, n: NamespacedName)
    ensures Triggers(events + [e], n) ==> Triggers(events, n) || (e.n == n && Passes(e))
  {
    var more := events + [e];
    if Triggers(more, n) {
      var i :| 0 <= i < |more| && more[i].n == n && Passes(more[i]);
      if i < |events| {
        assert events[i] == more[i];
      }
    }
  }

  lemma StaysIdle(w: World, step: Step, n: NamespacedName)
    requires DeletedAndIdle(w, n) && Enabled(w, step) && !(step.Create? && step.n == n)
    ensures DeletedAndIdle(Next(w, step), n) && (IsRegistered(Next(w, step), n) <==> IsRegistered(w, n))
    ensures !(step.Callback? && step.n == n)
  {
    NextRegistered(w, step, n);
    var w' := Next(w, step);
    if step.Deliver? {
      TriggersTail(w.events, n);
    } else if w'.events != w.events {
      TriggersAppend(w.events, w'.events[|w.events|], n);
    }
  }

  lemma {:induction false} RemainsIdle(w: World, steps: seq<Step>, n: NamespacedName)
    requires DeletedAndIdle(w, n)
    requires forall i :: 0 <= i < |steps| ==> !(steps[i].Create? && steps[i].n == n)
    ensures IsRegistered(Run(w, steps), n) <==> IsRegistered(w, n)
    decreases |steps|
  {
    if steps != [] {
      if Enabled(w, steps[0]) {
        StaysIdle(w, steps[0], n);
        RemainsIdle(Next(w, steps[0]), steps[1..], n);
      } else {
        RemainsIdle(w, steps[1..], n);
      }
    }
  }

  /**
   A Database that has been connected and for which nothing is to be done keeps its
   connection when it is deleted, through everything that happens until it is
   created again; other Databases may be in any state.
   */
  lemma DeletionKeepsConnection(w: World, steps: seq<Step>, n: NamespacedName)
    requires n in w.store && Idle(w, n) && IsRegistered(w, n)
    requires forall i :: 0 <= i < |steps| ==> !(steps[i].Create? && steps[i].n == n)
    ensures IsRegistered(Run(Next(w, Delete(n)), steps), n)
  {
    TriggersAppend(w.events, Deleted(n), n);
    RemainsIdle(Next(w, Delete(n)), steps, n);
  }

  /** A reconcile that has read n before the deletion, and then fails to connect. */
  function FailingInFlight(n: NamespacedName, o: Outcome): seq<Step> {
    [Delete(n), Callback(n, o)]
  }

  /** But a connect that was in flight at the deletion removes the connection if it fails, and nothing brings it back. */
  lemma DeletionInFlight(w: World, n: NamespacedName, o: Outcome)
    requires n in w.store && n in w.read
    ensures IsRegistered(Run(w, FailingInFlight(n, o)), n) <==> o.Succeeds?
  {
    var deleted := Next(w, Delete(n));
    assert LastConnect(deleted, [Callback(n, o)], n) == Some(o) by {
      assert LastConnect(Next(deleted, Callback(n, o)), [], n) == None;
    }
    assert FailingInFlight(n, o)[1..] == [Callback(n, o)];
    assert LastConnect(w, FailingInFlight(n, o), n) == Some(o);
    RegisteredIff(w, FailingInFlight(n, o), n);
  }

  // --------------------------------------------------------------------- reconcile

  /** What client.Get ends with. */
  datatype GetResult = Found(resource: Resource) | NotFound | GetFails

  class DatabaseWatcher {
    const manager: Manager

    constructor (manager: Manager)
      ensures this.manager == manager
    {
      this.manager := manager;
    }

    /** One reconcile without interruption: a missing object is no error, and every other failure is reported. */
    method Reconcile(n: NamespacedName, got: GetResult, server: Database, outcome: Outcome) returns (failed: bool)
      requires manager.Valid()
      modifies manager, manager.pools`open
      ensures manager.Valid()
      ensures manager.State() == if got.Found? then ConnectState(old(manager.State()), Key(n), got.resource.spec, outcome)
                                 else old(manager.State())
      ensures failed <==> got.GetFails? || (got.Found? && !outcome.Succeeds?)
    {
      match got {
      case GetFails =>
        return true;
      case NotFound =>
        return false;
      case Found(database) =>
        var connected := manager.Connect(n, database.spec, server, outcome);
        failed := !connected;
      }
    }
  }
}
