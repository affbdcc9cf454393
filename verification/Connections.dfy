/** The database manager: which connections are registered, which pools are open, and where a sensor type is routed. */
module Connections {
  import opened Common
  import opened Tables

  /** Kubernetes namespaces and names, which have no slash. */
  type ResourceName = s: string | '/' !in s witness ""

  datatype NamespacedName = NamespacedName(namespace: ResourceName, name: ResourceName)

  /** "namespace/name" */
  function Key(n: NamespacedName): string {
    n.namespace + "/" + n.name
  }

  lemma KeyInjective(a: NamespacedName, b: NamespacedName)
    requires Key(a) == Key(b)
    ensures a == b
  {
    var s := Key(a);
    assert s[|a.namespace|] == '/' && s[|b.namespace|] == '/';
    assert forall i :: 0 <= i < |a.namespace| ==> s[i] == a.namespace[i] && s[i] != '/';
    assert forall i :: 0 <= i < |b.namespace| ==> s[i] == b.namespace[i] && s[i] != '/';
    assert |a.namespace| == |b.namespace|;
    assert a.namespace == s[..|a.namespace|] && b.namespace == s[..|b.namespace|];
    assert a.name == s[|a.namespace| + 1..] && b.name == s[|b.namespace| + 1..];
  }

  /** What of a Database resource the manager acts on: where the server is and which sensor types it takes. */
  datatype Spec = Spec(server: string, sensorTypes: seq<string>)

  /** How the plumbing of one Connect call ends; pools are opened from OpenFails on. */
  datatype Outcome =
    | DsnFails                       // password, CA or client certificate missing or malformed
    | ParseFails                     // the DSN is rejected on the TLS path
    | OpenFails(leavesPool: bool)    // gorm.Open fails, before or after it made a pool
    | PoolFails                      // db.DB() fails
    | MigrationsFail
    | Succeeds

  predicate OpensPool(o: Outcome) {
    o.PoolFails? || o.MigrationsFail? || o.Succeeds? || (o.OpenFails? && o.leavesPool)
  }

  // ---------------------------------------------------------------- the abstract state

  /** A connection with its pool and the pool behind each of its handlers. */
  datatype ConnectionState = ConnectionState(spec: Spec, pool: nat, moisture: Option<nat>, waterLevel: Option<nat>,
                                             valve: Option<nat>, room: Option<nat>)

  /** open[i] tells whether the i-th pool that this process made is still open. */
  datatype ManagerState = ManagerState(connections: map<string, ConnectionState>, open: seq<bool>)

  const INITIAL: ManagerState := ManagerState(map[], [])

  function HandlerPool(c: ConnectionState, k: Kind): Option<nat> {
    match k
    case Moisture => c.moisture
    case WaterLevel => c.waterLevel
    case Valve => c.valve
    case Room => c.room
  }

  predicate Lists(spec: Spec, sensorType: string) {
    sensorType in spec.sensorTypes
  }

  /** The connection a successful Connect registers. */
  function NewConnection(spec: Spec, pool: nat): ConnectionState {
    ConnectionState(spec, pool, HandlerFor(spec, Moisture, pool), HandlerFor(spec, WaterLevel, pool),
                    HandlerFor(spec, Valve, pool), HandlerFor(spec, Room, pool))
  }

  function HandlerFor(spec: Spec, k: Kind, pool: nat): Option<nat> {
    if Lists(spec, KindName(k)) then Some(pool) else None
  }

  function DisconnectState(s: ManagerState, key: string): ManagerState {
    if key !in s.connections then s
    else
      var p := s.connections[key].pool;
      ManagerState(s.connections - {key}, if p < |s.open| then s.open[p := false] else s.open)
  }

  function ConnectState(s: ManagerState, key: string, spec: Spec, o: Outcome): ManagerState {
    OpenState(DisconnectState(s, key), key, spec, o)
  }

  /** The rest of Connect once an existing connection is gone. */
  function OpenState(s: ManagerState, key: string, spec: Spec, o: Outcome): ManagerState {
    if !OpensPool(o) then s
    else if o.Succeeds? then Register(WithPool(s), key, NewConnection(spec, |s.open|))
    else WithPool(s)
  }

  function WithPool(s: ManagerState): ManagerState {
    s.(open := s.open + [true])
  }

  function Register(s: ManagerState, key: string, c: ConnectionState): ManagerState {
    s.(connections := s.connections[key := c])
  }

  datatype Step = Connect(key: string, spec: Spec, outcome: Outcome) | Disconnect(key: string)

  function Next(s: ManagerState, step: Step): ManagerState {
    match step
    case Connect(key, spec, o) => ConnectState(s, key, spec, o)
    case Disconnect(key) => DisconnectState(s, key)
  }

  function RunSteps(s: ManagerState, steps: seq<Step>): ManagerState
    decreases |steps|
  {
    if steps == [] then s else RunSteps(Next(s, steps[0]), steps[1..])
  }

  // ------------------------------------------------------------------- invariants

  ghost predicate Registered(s: ManagerState, p: nat) {
    exists key :: key in s.connections && s.connections[key].pool == p
  }

  /** Every registered pool exists and is open, and no two connections share one. */
  ghost predicate PoolsSafe(s: ManagerState) {
    && (forall key :: key in s.connections ==> s.connections[key].pool < |s.open| && s.open[s.connections[key].pool])
    && (forall a, b :: a in s.connections && b in s.connections && s.connections[a].pool == s.connections[b].pool ==> a == b)
  }

  /** Each handler is there exactly when its type is listed, and writes to the connection's own pool. */
  ghost predicate HandlersAgree(s: ManagerState) {
    forall key :: key in s.connections ==> HandlersMatch(s.connections[key])
  }

  ghost predicate HandlersMatch(c: ConnectionState) {
    forall k: Kind :: HandlerPool(c, k) == if Lists(c.spec, KindName(k)) then Some(c.pool) else None
  }

  ghost predicate Inv(s: ManagerState) {
    PoolsSafe(s) && HandlersAgree(s)
  }

  lemma DisconnectInv(s: ManagerState, key: string)
    requires Inv(s)
    ensures Inv(DisconnectState(s, key))
    ensures key !in DisconnectState(s, key).connections && |DisconnectState(s, key).open| == |s.open|
  {
  }

  lemma NewConnectionMatches(spec: Spec, pool: nat)
    ensures HandlersMatch(NewConnection(spec, pool))
  {
  }

  lemma WithPoolInv(s: ManagerState)
    requires Inv(s)
    ensures Inv(WithPool(s))
  {
  }

  lemma RegisterInv(s: ManagerState, key: string, c: ConnectionState)
    requires Inv(s) && key !in s.connections && HandlersMatch(c)
    requires c.pool == |s.open|
    ensures Inv(Register(WithPool(s), key, c))
  {
    var s' := Register(WithPool(s), key, c);
    assert forall k :: k in s.connections ==> s'.connections[k] == s.connections[k] && s.connections[k].pool < |s.open|;
    assert PoolsSafe(s');
  }

  lemma NextInv(s: ManagerState, step: Step)
    requires Inv(s)
    ensures Inv(Next(s, step))
  {
    DisconnectInv(s, step.key);
    if step.Connect? {
      var s1 := DisconnectState(s, step.key);
      WithPoolInv(s1);
      NewConnectionMatches(step.spec, |s1.open|);
      RegisterInv(s1, step.key, NewConnection(step.spec, |s1.open|));
    }
  }

  lemma {:induction false} RunInv(s: ManagerState, steps: seq<Step>)
    requires Inv(s)
    ensures Inv(RunSteps(s, steps))
    decreases |steps|
  {
    if steps != [] {
      NextInv(s, steps[0]);
      RunInv(Next(s, steps[0]), steps[1..]);
    }
  }

  /** In every reachable state every registered pool is open and the handlers match the declared types. */
  lemma ReachableInv(steps: seq<Step>)
    ensures Inv(RunSteps(INITIAL, steps))
  {
    RunInv(INITIAL, steps);
  }

  /**
   A failing Connect leaves its key absent; a successful one registers exactly the
   pool it just opened; other keys and their pools stay as they were.
   */
  lemma ConnectFrame(s: ManagerState, key: string, spec: Spec, o: Outcome)
    requires Inv(s)
    ensures var s' := ConnectState(s, key, spec, o);
            && (key in s'.connections <==> o.Succeeds?)
            && (o.Succeeds? ==> var c := s'.connections[key];
                  c.spec == spec && c.pool == |s.open| && c.pool == |s'.open| - 1 && s'.open[c.pool])
            && (forall other :: other != key ==> (other in s'.connections <==> other in s.connections))
            && (forall other :: other != key && other in s.connections ==>
                  s'.connections[other] == s.connections[other] && s'.open[s.connections[other].pool])
            && (key in s.connections ==> !s'.open[s.connections[key].pool])
  {
  }

  // ------------------------------------------------------------------ leaked pools

  ghost function Unregistered(s: ManagerState): set<nat> {
    set p: nat | 0 <= p < |s.open| && s.open[p] && !Registered(s, p)
  }

  /** The exits that leave an open pool behind which nothing refers to. */
  predicate Leaks(step: Step) {
    step.Connect? && !step.outcome.Succeeds? && OpensPool(step.outcome)
  }

  lemma DisconnectUnregistered(s: ManagerState, key: string)
    requires Inv(s)
    ensures Unregistered(DisconnectState(s, key)) == Unregistered(s)
  {
    var s1 := DisconnectState(s, key);
    forall p: nat | p < |s.open| ensures p in Unregistered(s1) <==> p in Unregistered(s) {
      if Registered(s, p) {
        var k :| k in s.connections && s.connections[k].pool == p;
        if k != key {
          assert k in s1.connections && s1.connections[k].pool == p;
        }
      }
      if Registered(s1, p) {
        var k :| k in s1.connections && s1.connections[k].pool == p;
        assert k in s.connections && s.connections[k].pool == p;
      }
    }
  }

  lemma WithPoolUnregistered(s: ManagerState)
    requires Inv(s)
    ensures Unregistered(WithPool(s)) == Unregistered(s) + {|s.open|}
  {
    var s' := WithPool(s);
    forall p: nat ensures Registered(s', p) <==> Registered(s, p) {
      if Registered(s, p) {
        var k :| k in s.connections && s.connections[k].pool == p;
        assert k in s'.connections && s'.connections[k].pool == p;
      }
      if Registered(s', p) {
        var k :| k in s'.connections && s'.connections[k].pool == p;
        assert k in s.connections && s.connections[k].pool == p;
      }
    }
    assert !Registered(s, |s.open|);
  }

  lemma RegisterUnregistered(s: ManagerState, key: string, c: ConnectionState)
    requires key !in s.connections
    ensures Unregistered(Register(s, key, c)) == Unregistered(s) - {c.pool}
  {
    var s' := Register(s, key, c);
    assert s'.connections[key].pool == c.pool;
    forall p: nat | p != c.pool ensures Registered(s', p) <==> Registered(s, p) {
      if Registered(s, p) {
        var k :| k in s.connections && s.connections[k].pool == p;
        assert k in s'.connections && s'.connections[k].pool == p;
      }
      if Registered(s', p) {
        var k :| k in s'.connections && s'.connections[k].pool == p;
        assert k in s.connections && s.connections[k].pool == p;
      }
    }
  }

  lemma NextUnregistered(s: ManagerState, step: Step)
    requires Inv(s)
    ensures Unregistered(Next(s, step)) == Unregistered(s) + if Leaks(step) then {|s.open|} else {}
  {
    var s1 := DisconnectState(s, step.key);
    DisconnectUnregistered(s, step.key);
    DisconnectInv(s, step.key);
    if step.Connect? && OpensPool(step.outcome) {
      WithPoolUnregistered(s1);
      if step.outcome.Succeeds? {
        RegisterUnregistered(WithPool(s1), step.key, NewConnection(step.spec, |s1.open|));
        assert |s1.open| !in Unregistered(s1);
      }
    }
  }

  lemma {:induction false} RunUnregistered(s: ManagerState, steps: seq<Step>)
    requires Inv(s)
    ensures Unregistered(s) <= Unregistered(RunSteps(s, steps))
    ensures Unregistered(RunSteps(s, steps)) == Unregistered(s) <==> forall i :: 0 <= i < |steps| ==> !Leaks(steps[i])
    decreases |steps|
  {
    if steps != [] {
      var s1 := Next(s, steps[0]);
      NextInv(s, steps[0]);
      NextUnregistered(s, steps[0]);
      RunUnregistered(s1, steps[1..]);
      assert forall i :: 1 <= i < |steps| ==> steps[i] == steps[1..][i - 1];
      if Leaks(steps[0]) {
        assert |s.open| in Unregistered(s1);
        assert |s.open| !in Unregistered(s);
      }
    }
  }

  /**
   "Every open pool is registered" is not an invariant.  It holds after a run
   exactly when no Connect of that run failed after its pool was made; nothing
   ever closes the pool of such a failure.
   */
  lemma OpenPoolsRegisteredIff(steps: seq<Step>)
    ensures var s := RunSteps(INITIAL, steps);
            (forall p: nat :: p < |s.open| && s.open[p] ==> Registered(s, p))
            <==> (forall i :: 0 <= i < |steps| ==> !Leaks(steps[i]))
  {
    RunUnregistered(INITIAL, steps);
    var s := RunSteps(INITIAL, steps);
    assert Unregistered(INITIAL) == {};
    if p: nat :| p < |s.open| && s.open[p] && !Registered(s, p) {
      assert p in Unregistered(s);
    }
    if Unregistered(s) != {} {
      var p :| p in Unregistered(s);
      assert p < |s.open| && s.open[p] && !Registered(s, p);
    }
  }

  // ---------------------------------------------------------------------- routing

  ghost predicate Candidate(s: ManagerState, sensorType: string, key: string) {
    key in s.connections && Lists(s.connections[key].spec, sensorType)
  }

  ghost predicate AtMostOneLists(s: ManagerState, sensorType: string) {
    forall a, b :: Candidate(s, sensorType, a) && Candidate(s, sensorType, b) ==> a == b
  }

  /**
   Whichever connections the two independent iterations over the map stop at, the
   pool returned for reading and the pool the handler writes to are the same:
   exactly when at most one connection lists the type.
   */
  lemma ReadsAgreeWithWrites(steps: seq<Step>, k: Kind)
    ensures var s := RunSteps(INITIAL, steps);
            (forall read, write :: Candidate(s, KindName(k), read) && Candidate(s, KindName(k), write) ==>
               HandlerPool(s.connections[write], k) == Some(s.connections[read].pool))
            <==> AtMostOneLists(s, KindName(k))
  {
    ReachableInv(steps);
  }

  /** No "handler not initialized" exit: the connection that the loop stops at has the handler, and its pool is open. */
  lemma HandlerIsInitialized(steps: seq<Step>, key: string, k: Kind)
    requires Candidate(RunSteps(INITIAL, steps), KindName(k), key)
    ensures var s := RunSteps(INITIAL, steps);
            HandlerPool(s.connections[key], k) == Some(s.connections[key].pool)
            && s.connections[key].pool < |s.open| && s.open[s.connections[key].pool]
  {
    ReachableInv(steps);
  }
}
