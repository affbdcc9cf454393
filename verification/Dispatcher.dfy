/** The table of message handlers between the MQTT side and the telemetry handler. */
module Dispatcher {
  import opened Common
  import opened Handlers
  import opened Manager
  import opened Telemetry
  import opened Ingest

  /** A handler: the telemetry handler, or any other implementation, of which only its answer is known. */
  datatype MessageHandler = Tasmota(telemetry: TelemetryHandler) | Custom(id: nat)

  /** What a message ends in. */
  datatype Dispatched = Unhandled | Answered(ok: bool)

  class Dispatcher {
    var handlers: map<string, MessageHandler>
    const dbManager: Manager

    constructor (dbManager: Manager)
      ensures this.dbManager == dbManager && handlers.Keys == {"telemetry", "sensor"}
      ensures forall t :: t in handlers ==> handlers[t].Tasmota? && handlers[t].telemetry.dbManager == dbManager
    {
      this.dbManager := dbManager;
      handlers := map[];
      new;
      var telemetry := new TelemetryHandler(dbManager);
      var sensor := new TelemetryHandler(dbManager);
      handlers := handlers["telemetry" := Tasmota(telemetry)];
      handlers := handlers["sensor" := Tasmota(sensor)];
    }

    /** Adds or replaces a handler; none is ever taken away. */
    method RegisterHandler(messageType: string, handler: MessageHandler)
      modifies this`handlers
      ensures handlers == old(handlers)[messageType := handler]
      ensures old(handlers.Keys) <= handlers.Keys
    {
      handlers := handlers[messageType := handler];
    }

    /** The manager that telemetry of a type is stored through, if its handler is the telemetry handler. */
    ghost function ManagerFor(messageType: string): Manager?
      reads this`handlers
    {
      if messageType in handlers && handlers[messageType].Tasmota? then handlers[messageType].telemetry.dbManager else null
    }

    ghost function DatabasesFor(messageType: string): set<Database>
      reads this`handlers, ManagerFor(messageType)
    {
      var m := ManagerFor(messageType);
      if m == null then {} else set p: Pool | p in m.pools :: p.database
    }

    /**
     A type without handler is no error and changes nothing.  A type with the telemetry
     handler has the effect of its HandleMessage; the answer of any other handler is
     handed on.
     */
    method Dispatch(messageType: string, msg: Option<map<string, ZigbeeDevice>>, calls: string -> Call, customOk: bool)
      returns (r: Dispatched, ghost visits: seq<Visit>)
      requires ManagerFor(messageType) != null ==> Ready(ManagerFor(messageType))
      modifies DatabasesFor(messageType)
      ensures r.Unhandled? <==> messageType !in handlers
      ensures messageType in handlers ==> r.ok == if handlers[messageType].Tasmota? then msg.Some? else customOk
      ensures ManagerFor(messageType) != null ==>
                Handled(ManagerFor(messageType), if msg.None? then map[] else msg.value, calls, visits)
      ensures ManagerFor(messageType) != null ==>
                forall p :: p in ManagerFor(messageType).pools ==>
                  HasReceived(p.database.Contents(), old(p.database.Contents()), calls,
                              if msg.None? then map[] else msg.value, visits, p.database)
    {
      visits := [];
      if messageType !in handlers {
        return Unhandled, [];
      }
      match handlers[messageType] {
      case Tasmota(telemetry) =>
        var ok: bool;
        ok, visits := telemetry.HandleMessage(msg, calls);
        r := Answered(ok);
      case Custom(_) =>
        r := Answered(customOk);
      }
    }
  }

  /** The visits of a message that a manager has handled. */
  ghost predicate Handled(m: Manager, entries: map<string, ZigbeeDevice>, calls: string -> Call, visits: seq<Visit>)
    reads m, m.connections.Values, m.pools, set p: Pool | p in m.pools :: p.database
  {
    Ready(m) && IsOrder(visits, entries.Keys) && AllGoWhereListed(m, calls, visits)
  }
}
