# Verification model of mqtt-sensor-exporter

mqtt-sensor-exporter is a Kubernetes operator. It keeps connections to the databases and MQTT
bridges that custom resources describe, stores Zigbee telemetry into per-type measurement tables,
and answers an alert query over them. This Dafny project models the three linked parts that carry
state and arithmetic, and proves what they promise:

1. **Connection life cycle.** `Connections` is the state machine of the database manager (which
   connections are registered, which pools are open, which handlers a connection has) and
   `Manager` the objects that implement it. `Watcher` puts cluster, informer, event filter, work
   queue and two-step reconciles around it. `Bridges` is the state machine of the MQTT clients and
   their callbacks, `BridgeManager` its objects, `Dispatcher` the handler table.
2. **Telemetry ingest.** `Telemetry` turns a message entry into a payload, with corrections and the
   detour of integers through float64 (`Float64`); `Ingest` is the loop over one message and the
   routing, with a device list of its own for every entry; `Tables` says on values what a store does to the tables, and `Handlers` holds the four
   measurement handlers that are proved to do exactly that. `ConcurrentStores` lets stores overlap
   between their lookup and the rest. `Names` has the two string normalisers. `Queries` is the
   reading side of a table: range, latest, retention.
3. **Alert query.** `Durations` (with `Decimals` for the digits behind a point) and `AlertFilters`
   parse the request, `Alerts` filters, averages and compares (`Collecting` has the lemmas about its
   loop), and `EndToEnd` joins it to the ingest side.

Code that changes state is modelled by classes and loops whose `ensures` tie the new state to a
function of the old one; the laws are lemmas about these functions, over all inputs, all histories
and all reachable states.

`dafny verify dfyconfig.toml` checks the whole project.

## Assumptions

- Names are unique within a namespace and contain no slash; namesakes in different namespaces may exist. A generation changes exactly when the
  spec changes, and a delete followed by a create is never merged into one update event.
- The work queue hands out an item to one worker at a time and never loses it; an informer delivers
  events in order and a `Get` reads its cache.
- The clock does not go backwards within one alert query.
- The MQTT library's `IsConnected` also counts a client that will reconnect by itself; a client that
  was told to disconnect never comes back; a broken connection loses its subscriptions (clean session).
- SQL statements are exact functions over rows in key order, `LIMIT 1` takes the first one, and each
  statement may also fail; which ones do is a parameter (`Faults`, `ReadFaults`).
- Sensor values and averages are reals. Rounding to float64 is modelled, exactly and as integers,
  where an `int` is stored as a `float64` and converted back (IEEE 754-2019, sections 4.3.1 and
  5.4.1); a value out of range converts to -2^63, as on amd64. A fraction in a duration is rounded
  with the products and quotients that Go's `time.ParseDuration` takes, with unbounded exponents:
  beyond float64's range its nanoseconds are zero either way.
- Plumbing that only succeeds or fails (DSN, secrets, TLS, dialling, migrations, listing from the
  API server) is an outcome given as a parameter.

## Properties that do not hold

Each has its exact condition, or the inputs that break it:

- "Every open pool is registered": exactly when no `Connect` failed after its pool was made
  (`OpenPoolsRegisteredIff`).
- "The pool that is read is the pool that is written": exactly when at most one connection lists the
  type (`ReadsAgreeWithWrites`).
- "A deleted Database is disconnected": a Database is registered exactly when its last connect
  succeeded, whether it still exists or not (`RegisteredIff`). If nothing is to be done for it, the
  deletion leaves its connection until it is created again (`DeletionKeepsConnection`); a connect in
  flight at the deletion removes it exactly when it fails (`DeletionInFlight`).
- "After `Connect` the topics are subscribed": from every state exactly when the callback does not
  overtake the assignment of the client, or there is no sensor topic
  (`EarlyCallbackLosesSubscriptions`); per callback exactly when the client is assigned and up, or had
  them already (`SubscriptionRestored`).
- "The stored name is the sanitised name": for a store that does not overlap another one of its
  device, except exactly when the ignored result of the update was a failure (`StoredNameIsSanitized`).
  In general, for a row that the lookup found, exactly when it needed an update as it was found and
  that worked, or it has the name by then (`FinishedName`); after a stale lookup another store's name can stay although
  every statement works (`StaleLookupKeepsOtherName`).
- "Device ids are unique under concurrent stores": exactly when their column has a unique index or no
  store creates a device that another one has created since its lookup; keys, references and clean
  texts survive in any case (`InterleavingsAreValidIff`). With the index the later of two overlapping
  first stores loses its measurement (`OverlappingFirstStores`). Only stores for one device can
  disturb each other: if those never overlap, every interleaving is a serial run
  (`InterleavingIsSerial`).
- "The short address is stored": never; producer and handlers disagree on the entry's name
  (`ShortAddressesAreNeverStored`).
- "An alert means some value is beyond the threshold": exactly when the window has a value that is
  not NULL, or zero is on the safe side (`AlertsFollowData`).
- "Without `since` the latest single measurement is used" (`API.md`): the code averages the last
  minute, and the model follows the code. The value is the latest reading's exactly when that is in
  the window and not NULL, and is the only value there or the others average to it
  (`LatestIsTheValueIff`); with 0 and then 30 it is 15 (`LatestIsNotTheValue`).
- "A disabled device is not stored": it is, and exactly as if it were enabled
  (`DisabledIsStoredAlike`); only the alert query skips it (`DisabledAreNotReported`).
- "An alert is about the device's own data": rows and alerts know only the bare name, while the alert
  query spans all namespaces. What is stored for other names or other types leaves an alert as it is
  (`OtherStoresKeepAlert`); what is stored for a namesake of the same type in another namespace decides
  it like its own (`AlertFollowsTelemetry`).
- "A duration past int64 is an error": exactly when no sum of 2^63 is followed by another 2^63, which
  cancel out, or what is left behind the last such pair is an error, too (`RoundTrip`); twice 2^63ns
  is zero (`TwiceTheLimit`).
- "A negative duration finds nothing": except exactly -2^63, which has no negation, so that its window
  holds the last 2^63 nanoseconds (`NegativeSinceFindsNothing`).
- "`1day` is a day" and "`1h3d` is 73 hours": n followed by the word day is n hours, and n days exactly
  when n is zero (`DayWordIsHours`); with a final d the first number, sign included, is read as days and
  the rest is ignored (`DaySuffixParses`), so the sum comes out exactly when it is that many days,
  wrapped around as an int64 (`MixedDaysAreExactIff`). `nd` and `-nd` alone are n days exactly up to
  106751 (`DaysAreExactUpTo`).
- "A filter for a device name gets that name": exactly when the name neither begins nor ends with a
  slash (`FiltersRoundTrip`).

## Model

| member | source | states |
|---|---|---|
| Connections.KeyInjective | internal/database/manager.go:75-75 | two resources with the same map key are the same resource, because names have no slash |
| Connections.NextInv | internal/database/manager.go:71-226 | each Connect, with any failure exit, and each Disconnect keeps registered pools open and unshared and handlers matching the declared types |
| Connections.ReachableInv | internal/database/manager.go:163-201 | in every reachable state every registered pool is open, and each of the four handlers is present exactly when its type is listed and shares the connection's pool, repeats and unknown types included |
| Connections.ConnectFrame | internal/database/manager.go:82-208 | a failed Connect leaves its key absent, a successful one registers exactly the pool it just opened, the replaced pool is closed, and all other connections and their pools stay |
| Connections.OpenPoolsRegisteredIff | internal/database/manager.go:131-160 | after a run every open pool is registered if and only if no Connect of the run failed after its pool was made |
| Connections.ReadsAgreeWithWrites | internal/database/manager.go:240-253 | for all stopping points of the two map iterations the pool read from is the pool written to, if and only if at most one connection lists the type |
| Connections.HandlerIsInitialized | internal/database/manager.go:262-297 | in every reachable state the "handler not initialized" exits cannot be taken |
| Manager.Connection.StoreWith | internal/database/manager.go:262-297 | the switch writes through exactly the handler of the kind and changes its database as Store says |
| Manager.Manager.SetUpHandlers | internal/database/manager.go:168-199 | the loop over the types leaves exactly the handlers of the abstract new connection |
| Manager.Manager.Connect | internal/database/manager.go:71-208 | the method takes the abstract state to ConnectState for every outcome, and reports success exactly for the succeeding one |
| Manager.Manager.Disconnect | internal/database/manager.go:211-226 | the method takes the abstract state to DisconnectState |
| Manager.Manager.FindConnection | internal/database/manager.go:240-253 | whatever the iteration order, a connection is found exactly when one lists the type, and it lists it |
| Manager.Manager.GetDBForSensorType | internal/database/manager.go:432-454 | returns the pool of some connection that lists the type, and null exactly when there is none |
| Manager.Manager.StoreMeasurement | internal/database/manager.go:229-298 | routes to the handler of the found connection, with every error exit, changes that one database as Store says and no other |
| Watcher.ConvergedOrPending | internal/watcher/database_watcher.go:54-95 | in every reachable state each existing Database has a registered connection with exactly its current spec or a connect with it is still to come, whatever lands between read and connect and whatever the filter drops |
| Watcher.NextKeeps | internal/watcher/database_watcher.go:54-95 | every step, of the cluster, the informer, the queue, a failing or succeeding read or connect, keeps the invariant: a spec that was read too early will be read again |
| Watcher.CacheIsCurrent | internal/watcher/database_watcher.go:80-88 | when no event that passes the filter is on its way, the cache holds the current spec; dropped events do not matter |
| Watcher.DeliverAddsExactly | internal/watcher/database_watcher.go:75-95 | delivering an event adds exactly its item if it is a creation or changes the spec, and else leaves the queue as it is |
| Watcher.StatusWritesAreQuiet | internal/watcher/database_watcher.go:75-95 | with nothing left to do, any number of status writes, deletions and resyncs, with the watcher's steps between them, start no reconcile and no connect and leave the manager as it is |
| Watcher.HealthyRunsConverge | internal/watcher/database_watcher.go:54-72 | from every reachable state any schedule of non-failing steps ends after a bounded number of them, and then every Database is connected with its current spec, an open pool and matching handlers |
| Watcher.RegisteredIff | internal/watcher/database_watcher.go:54-95 | after any run from any world a Database has a connection if and only if its last connect succeeded, or there was none and it had one before |
| Watcher.DeletionKeepsConnection | internal/watcher/database_watcher.go:89-91 | a connected Database for which nothing is to be done keeps its connection through its deletion and every run without a new creation, whatever the state of the others |
| Watcher.DeletionInFlight | internal/watcher/database_watcher.go:54-72 | a connect that has read the resource before the deletion leaves a connection if and only if it succeeds |
| Watcher.DatabaseWatcher.Reconcile | internal/watcher/database_watcher.go:54-72 | a found resource is connected with its spec, a missing one is no error and changes nothing, all other failures are reported |
| Bridges.NoLeakedClient | internal/mqtt/manager.go:86-191 | in every reachable state a client that is connected or will reconnect is the registered one of its bridge or the one a running Connect is making, and a bridge has at most one |
| Bridges.NextKeeps | internal/mqtt/manager.go:75-249 | every step, of Connect with its failure exits, Disconnect, loss, reconnect and the callbacks, keeps the invariant behind it |
| Bridges.ReplacedNeverReturns | internal/mqtt/manager.go:86-107 | the client that Connect or Disconnect replaces is closed at once and in every later state, also when that Connect then fails and the dead entry stays in the map |
| Bridges.ConnectedMeansLive | internal/mqtt/manager.go:194-203 | IsConnected answers for the one live client of the bridge |
| Bridges.SubscriptionRestored | internal/mqtt/manager.go:228-307 | after an onConnect with all subscribes accepted the subscriptions are exactly the telemetry and sensor topics, each with the type of its last such entry, if and only if the client was assigned and up or had them already |
| Bridges.SubscriptionsAlwaysRestored | internal/mqtt/manager.go:228-276 | in every run in which no callback overtakes the assignment, every client that is up and has no callback due is fully subscribed, through all losses and reconnects |
| Bridges.SubscribeAdds | internal/mqtt/manager.go:252-276 | with all subscribes accepted, every topic of type "telemetry" or "sensor" is subscribed, with the type of its last such entry, and no other topic is added |
| Bridges.FullySubscribedIff | internal/mqtt/manager.go:252-276 | fully subscribed means exactly that, from an empty session |
| Bridges.NotConnectedUntilGreeted | internal/mqtt/manager.go:194-249 | once the loss callback of a bridge's client has run, the bridge is not connected, through every run, until that client is greeted again or it has another one; greeting a live client makes it connected |
| Bridges.EarlyCallbackLosesSubscriptions | internal/mqtt/manager.go:150-170 | from every state without a running Connect, a successful one and its callback leave a bridge that counts as connected with no callback due, fully subscribed if and only if the callback did not precede the assignment or there is no sensor topic |
| Bridges.ConnectIsRun | internal/mqtt/manager.go:75-176 | the steps of one Connect call, for every exit and both orders of callback and assignment, lead to ConnectState |
| BridgeManager.BridgeManager.Connect | internal/mqtt/manager.go:75-176 | the method takes the abstract state through exactly those steps |
| BridgeManager.BridgeManager.Disconnect | internal/mqtt/manager.go:179-191 | the method takes the abstract state to DisconnectState |
| BridgeManager.BridgeManager.IsConnected | internal/mqtt/manager.go:194-203 | the method answers what the abstract state says |
| BridgeManager.BridgeConnection.SubscribeToTopics | internal/mqtt/manager.go:252-307 | the loop subscribes to the sensor topics in order when there is an open client, and to nothing otherwise; if all are accepted, to every topic of type "telemetry" or "sensor" |
| BridgeManager.BridgeConnection.OnConnect | internal/mqtt/manager.go:228-238 | the callback takes the connection to Greeted, with the same subscriptions |
| BridgeManager.BridgeConnection.OnConnectionLost | internal/mqtt/manager.go:241-249 | the callback clears connected and nothing else |
| BridgeManager.BridgeManager.RegisterHandler | internal/tasmota/dispatcher.go:60-63 | whatever is registered for whatever type, every type that is subscribed to keeps a handler |
| BridgeManager.BridgeManager.HandleMessage | internal/mqtt/manager.go:310-342 | every message on a subscribed topic of a Tasmota bridge reaches a handler, with the effect of HandleMessage if it is the telemetry handler; messages of other bridges change nothing |
| Dispatcher.Dispatcher.constructor | internal/tasmota/dispatcher.go:44-57 | exactly telemetry and sensor are registered, with telemetry handlers over the given manager |
| Dispatcher.Dispatcher.RegisterHandler | internal/tasmota/dispatcher.go:60-63 | adds or replaces one handler of any kind for any type; no type loses its handler |
| Dispatcher.Dispatcher.Dispatch | internal/tasmota/dispatcher.go:66-88 | an unknown type is no error and changes nothing; a known one has the effect of its telemetry handler, or hands on the answer of its other handler |
| Telemetry.FieldKeyInjective | internal/tasmota/telemetry_handler.go:132-211 | no two payload entries share a key |
| Telemetry.SetField | internal/tasmota/telemetry_handler.go:148-211 | one conditional assignment adds its own entry and leaves all others |
| Telemetry.BuildPayload | internal/tasmota/telemetry_handler.go:128-211 | after all assignments the payload holds every field of the message under its key, and nothing else |
| Telemetry.PayloadEntries | internal/tasmota/telemetry_handler.go:128-211 | entry by entry: temperature, humidity, pressure and voltage with their corrections added, integers with their truncated corrections added as 64-bit ints, three of them and the flags as they are, and the friendly name before the one in the message |
| Telemetry.NoAddressEntries | internal/tasmota/telemetry_handler.go:132-135 | telemetry never fills the entries that the handlers read an address from |
| Telemetry.ShortAddressesAreNeverStored | internal/database/moisture_handler.go:71-99 | whatever telemetry is stored, in whatever order and with whatever failures, every device row keeps empty addresses |
| Telemetry.FindByShortAddr | internal/tasmota/telemetry_handler.go:85-100 | finds the first device with the short address, and none exactly when there is none |
| Telemetry.DistinctAddressesDistinctDevices | internal/tasmota/telemetry_handler.go:85-103 | distinct short addresses of a message reach devices with distinct names |
| Telemetry.TouchedView | internal/tasmota/telemetry_handler.go:62-70 | after any list of stores for distinct devices each device has received exactly what its own store contributes alone |
| Telemetry.OrderIndependence | internal/tasmota/telemetry_handler.go:62-103 | two orders of the same stores, at any times and with the same failures, end in the same contents up to row keys and timestamps |
| Ingest.RouteFound | internal/database/manager.go:240-297 | in a reachable state whatever connection the iteration stops at has its handler, on its own open pool |
| Ingest.RouteIsUnique | internal/database/manager.go:240-253 | if at most one connection lists a type, there is only one database to go to |
| Ingest.RoutesAgree | internal/database/manager.go:240-253 | with no type listed twice, two runs over the same message reach the same databases, whatever the orders of both maps |
| Ingest.OneListIsDistinct | internal/tasmota/telemetry_handler.go:77-93 | entries that see one list, or fail to see one, never reach the same device twice |
| Ingest.VisitingOrderIsIrrelevant | internal/tasmota/telemetry_handler.go:62-73 | for distinct devices and the same routes every visiting order leaves every device with the same contents |
| Ingest.ReceivedFrom | internal/tasmota/telemetry_handler.go:62-103 | the one entry of a message that reaches a device decides what it receives, whatever else the message holds and whatever fails there |
| Ingest.DisabledIsStoredAlike | internal/tasmota/telemetry_handler.go:77-125 | with other disabled flags in its device lists every message leaves every device with the same contents |
| Ingest.TelemetryHandler.StoreMeasurement | internal/tasmota/telemetry_handler.go:128-234 | the corrected payload is stored, as Store says, in one database that the type is routed to, and no other database changes; there is none exactly when the kind is unknown or no connection lists it |
| Ingest.TelemetryHandler.ProcessZigbeeDevice | internal/tasmota/telemetry_handler.go:77-125 | the same for one message entry: unknown addresses, missing types and failing lists change nothing, and exactly the stated ones count as errors |
| Ingest.TelemetryHandler.HandleMessage | internal/tasmota/telemetry_handler.go:47-73 | for every visiting order, any failing entries and any lists of types, each entry goes where its type is listed, and each device of each database ends with what the visits that reach it give it |
| Tables.StoreValid | internal/database/moisture_handler.go:54-169 | every store keeps device ids unique, all rows pointing to a device, and stored texts free of control characters, whatever fails |
| Tables.EveryHistoryIsValid | internal/database/valve_handler.go:44-168 | so does every sequence of stores of all four handlers from an empty database |
| Tables.StoreAddsOneMeasurement | internal/database/moisture_handler.go:106-160 | a store succeeds exactly when lookup, needed creation and insert do; it then adds one measurement row and at most one row to each side table, all with the same time and the device's key, and a failed one adds none |
| Tables.StoreViews | internal/database/valve_handler.go:44-168 | a store changes its own device's share of the tables by its contribution and no other device's share |
| ConcurrentStores.AtomicIsStore | internal/database/moisture_handler.go:57-160 | a lookup and the rest of its store without anything between them are Store, with or without an index on device ids |
| ConcurrentStores.InterleavingsAreValidIff | internal/database/moisture_handler.go:57-104 | every interleaving of any stores keeps keys unique, references and clean texts; device ids stay unique if and only if they are indexed or no store creates a device that has been created since its lookup |
| ConcurrentStores.OverlappingFirstStores | internal/database/moisture_handler.go:59-83 | two first stores for one device that both look it up before either creates it leave two rows for it without the index, and exactly the first store's result with it |
| Tables.UpdateIsSanitize | internal/database/moisture_handler.go:87-100 | for a clean stored text the update branch gives the sanitised payload text whether or not it runs |
| Tables.StoredNameIsSanitized | internal/database/moisture_handler.go:67-103 | after a successful store that no other one of its device overlaps, with a name, the stored name is the sanitised one, except exactly when an update was needed and failed |
| ConcurrentStores.FinishedName | internal/database/moisture_handler.go:85-103 | for any store with a lookup from any earlier time: it leaves the sanitised name if and only if the row as found needed an update and that worked, or the row has the name by then |
| ConcurrentStores.StaleLookupKeepsOtherName | internal/database/moisture_handler.go:85-103 | a store that finishes last with the old name, after another one changed the name since its lookup, succeeds in every statement and leaves the other name |
| ConcurrentStores.InterleavingIsSerial | internal/database/manager.go:229-231 | if no two stores for one device overlap, every interleaving leaves exactly the tables, keys and times included, of its stores one after the other in finishing order |
| ConcurrentStores.InterleavedViews | internal/database/manager.go:229-231 | so interleaved stores for distinct devices leave each device exactly what its own store contributes alone |
| Handlers.FindOrCreateDevice | internal/database/moisture_handler.go:57-104 | the block leaves the tables and returns the key that FindOrCreate says, for every failing statement |
| Handlers.MoistureHandler.StoreMeasurement | internal/database/moisture_handler.go:54-169 | tables and result are those of Store |
| Handlers.WaterLevelHandler.StoreMeasurement | internal/database/water_level_handler.go:44-147 | tables and result are those of Store |
| Handlers.ValveHandler.StoreMeasurement | internal/database/valve_handler.go:44-168 | tables and result are those of Store |
| Handlers.RoomHandler.StoreMeasurement | internal/database/room_handler.go:53-150 | tables and result are those of Store, without a battery row |
| Handlers.MoistureHandler.GetLatestMeasurement | internal/database/moisture_handler.go:172-198 | a newest row of the device, with the device assigned to it; nothing for an unknown device or one without rows, and an error exactly when a statement fails or the pool is closed |
| Handlers.MoistureHandler.GetMeasurementsByTimeRange | internal/database/moisture_handler.go:201-226 | exactly the range, every row with the device assigned by the loop |
| Handlers.MoistureHandler.DeleteOldMeasurements | internal/database/moisture_handler.go:229-245 | removes exactly the rows before the cutoff and returns their number, unless the statement fails or the pool is closed |
| Handlers.RoomHandler.GetLatestMeasurement | internal/database/room_handler.go:153-179 | the same over the rows of rooms |
| Handlers.RoomHandler.GetMeasurementsByTimeRange | internal/database/room_handler.go:182-207 | exactly the range of the rows of rooms, each with the device assigned by the loop |
| Handlers.RoomHandler.DeleteOldMeasurements | internal/database/room_handler.go:210-226 | removes exactly the room rows before the cutoff and returns their number, unless the statement fails |
| Queries.RangeIsExact | internal/database/moisture_handler.go:210-214 | a range query returns every row of the device in the closed interval, each as often as it is stored, by ascending time |
| Queries.LatestIsNewest | internal/database/moisture_handler.go:181-185 | the latest reading is a newest row of the device, and there is one exactly when the device has rows |
| Queries.LatestEndsRange | internal/database/moisture_handler.go:172-226 | the latest reading has the time of the last row of any range that contains it |
| Queries.DeletionConserves | internal/database/moisture_handler.go:229-245 | deletion conserves rows, and exactly the old ones go |
| Queries.RetentionKeepsRecent | internal/database/moisture_handler.go:229-245 | deletion leaves every range that starts at or after the cutoff alone, and the latest reading exactly when there is none or it is not older |
| Names.SanitizeStringFixedPoints | internal/database/utils.go:22-30 | the result has no control character, and the fixed points are exactly the strings without one |
| Names.SanitizeStringKeepsText | internal/database/utils.go:22-30 | only control characters are removed, every other one stays in its place in the order |
| Names.AlphanumericStartHolds | internal/tasmota/utils.go:43-46 | the branch for a bad first character is never taken |
| Names.DeviceNameShape | internal/tasmota/utils.go:28-59 | every result has at most 253 characters of a-z, 0-9 and hyphen and starts with "device-" |
| Names.DeviceNameFixedPoints | internal/tasmota/utils.go:28-59 | a string is a fixed point if and only if it is such a name and does not end in a hyphen |
| Names.TwoApplicationsSuffice | internal/tasmota/utils.go:28-59 | two applications reach a fixed point from every input; one does exactly when its result does not end in a hyphen |
| Names.AddressName | internal/tasmota/utils.go:27-59 | an address, with or without 0x, becomes "device-" and its characters in lower case |
| Names.SeparatorName | internal/tasmota/utils.go:27-59 | in a name, with or without 0x, any character that is not a letter or digit becomes one hyphen and letters become lower case; the prefix is added exactly when the first part is not "device", and 253 characters are kept |
| Float64.RoundsToNearestEven | internal/tasmota/telemetry_handler.go:164-211 | the conversion of an integer is a nearest float64, the even one on a tie |
| Float64.DetourError | internal/database/valve_handler.go:98-126 | an int survives the detour up to 2^53, below the conversion limit it is off by at most its 2^53rd part, and above it becomes -2^63 |
| Float64.ExactIffRepresentable | internal/tasmota/telemetry_handler.go:164-211 | the conversion is exact if and only if the integer is a float64, and a second one changes nothing |
| Float64.TruncatesTowardZero | internal/tasmota/utils.go:116-116 | the conversion to int drops the fraction toward zero, and gives -2^63 outside int64 |
| Durations.RoundTrip | internal/api/handler.go:150-168 | parsing any written list of numbers and units, with fractions, a sign and blanks around it, gives what the parts behind the last cancelling pair stand for; that is the exact sum, or an error if that does not fit, if and only if there is no such pair or the rest is an error |
| Durations.TwiceTheLimit | internal/api/handler.go:168-168 | 2^63 nanoseconds written twice are accepted, as zero |
| Durations.WrappedSum | internal/api/handler.go:168-168 | a sum of 2^63 and another 2^63 cancel out: the rest is parsed as if it stood alone, and nothing behind them gives zero |
| Durations.EveryDurationCanBeWritten | internal/api/handler.go:168-168 | every int64 number of nanoseconds, negative ones included, can be written so that it parses back |
| Durations.SmallUnitsParse | internal/api/handler.go:168-168 | n ms and n us, in each of the three spellings, are a million and a thousand times n nanoseconds |
| Durations.FractionAlone | internal/api/handler.go:168-168 | a number with a point is the whole units and the nanoseconds of its fraction |
| Durations.PointParses | internal/api/handler.go:168-168 | a number may begin with its point |
| Durations.NoDigitsFails | internal/api/handler.go:168-168 | a unit without any digits before it is an error |
| Durations.NoUnitFails | internal/api/handler.go:168-168 | a number other than zero without a unit is an error |
| Durations.ZeroParses | internal/api/handler.go:151-168 | zero needs no unit, with any sign and blanks |
| Durations.NothingFails | internal/api/handler.go:151-168 | nothing but blanks is an error |
| Durations.Blanks | internal/api/handler.go:152-152 | the blanks that are trimmed are exactly these characters |
| Durations.FractionIsToTheNanosecond | internal/api/handler.go:168-168 | up to 18 digits behind a point of a unit of at most an hour are worth less than 1.002 nanoseconds too little and 0.002 too much |
| Decimals.NearestIsClose | internal/api/handler.go:168-168 | the quotient that is taken for a fraction is rounded by at most its 2^53rd part |
| Decimals.ScaleIsExact | internal/api/handler.go:168-168 | the scale that is multiplied up digit by digit is exactly the power of ten, up to 10^22 |
| Durations.RespellPrint | internal/api/handler.go:153-156 | the chained replacements act on each unit word separately, never across a count |
| Durations.Spellings | internal/api/handler.go:153-156 | s and sec, m and min, h and hour (and day) come out as s, m, h |
| Durations.DaySuffixParses | internal/api/handler.go:159-166 | with a final d the number at the start, with its sign, any leading zeros and blanks around the whole, is read as days, and any text between it and the d is ignored |
| Durations.DaysAreExactUpTo | internal/api/handler.go:159-166 | nd and -nd are n days if and only if n is at most 106751, and an error if and only if the count does not fit an int |
| Durations.MixedDaysAreExactIff | internal/api/handler.go:159-166 | parts before a final d, with any sign, give the exact sum if and only if the first count fits and the sum is that many days, wrapped around as an int64 |
| Durations.MixedDaysAreNotTheSum | internal/api/handler.go:159-166 | 1h3d is one day |
| Durations.DayWordIsHours | internal/api/handler.go:156-156 | n followed by the word day is n hours, or an error if that does not fit, for every n; it is n days if and only if n is zero |
| AlertFilters.ParseAlertFilters | internal/api/handler.go:107-147 | field after field the filters are those of FiltersFrom, and an unparsable since is an error |
| AlertFilters.FiltersRoundTrip | internal/api/handler.go:107-147 | for every int64 duration, negative ones included, path and query written for the filters parse to exactly them if and only if the device name has no slash at an edge, and else to them without these slashes |
| AlertFilters.EdgeSlashes | internal/api/handler.go:111-118 | the device name is what is left of the path when all slashes at both edges are dropped |
| AlertFilters.NothingAsked | internal/api/handler.go:107-147 | a request without name and parameters has no filters |
| AlertFilters.AnyWritingOfSince | internal/api/handler.go:138-168 | any other writing of the duration, with several units, fractions, a sign and blanks, gives the filters with what its parts behind the last cancelling pair stand for, or an error if that does not fit |
| Alerts.AlertsService.GetTriggeredAlerts | internal/api/alerts_service.go:51-158 | the loop returns the alerts of the specification, in which the late test on the time does not occur, for tables that each device's type is routed to |
| Alerts.AlertsService.GetMeasurementValue | internal/api/alerts_service.go:163-185 | database, device, default window and average as specified, for every int64 duration and whatever listed connection the map iteration finds, and without one exactly if none lists the type |
| Alerts.AlertsService.GetAverageMeasurement | internal/api/alerts_service.go:188-274 | the switch reads the table of the sensor type, and nothing for an unsupported one |
| Alerts.ReadIsUnique | internal/database/manager.go:432-454 | if at most one connection lists a type, there is only one table to read from |
| Alerts.TriggeredIsExact | internal/api/alerts_service.go:65-149 | the result is the order-preserving subsequence of exactly the devices that pass the filters and fire, each reported once |
| Alerts.QueriedIsNamed | internal/api/alerts_service.go:277-290 | the column of the query is the one that the measurement names, spelled in any of the accepted ways, of those that the sensor type has; every other name is rejected |
| Alerts.ReportedAreWanted | internal/api/alerts_service.go:65-149 | reported are exactly the devices that fire and whose name, type, location and room equal the filters that are not empty |
| Alerts.ReportedAlert | internal/api/alerts_service.go:113-149 | a reported alert carries the names, places and addresses of its device, the mean of the values in the window, the time of the latest reading, and the condition, which that mean meets |
| Alerts.FailedReadsRaiseNothing | internal/api/alerts_service.go:93-107 | a device whose database, row or measurements cannot be read raises no alert |
| Alerts.EarlyIsLate | internal/api/alerts_service.go:76-91 | filtering by name, type, location and room before the query equals filtering the unfiltered result afterwards |
| Alerts.LateTestNeverRemoves | internal/api/alerts_service.go:112-117 | the window of the query already enforces what the late test asks for |
| Alerts.ValueIffLatestInWindow | internal/api/alerts_service.go:188-274 | a device has a value exactly when its latest reading lies in the window, and the reported time is that reading's |
| Alerts.WindowIsExact | internal/api/alerts_service.go:180-210 | the window holds every row of the device that is not older than the duration, or than one minute when none is asked for, as often as it is stored, and no other |
| Alerts.LatestIsTheValueIff | internal/api/alerts_service.go:170-274 | there is a value and it is the latest reading's if and only if that reading is in the window and has a cell, and is the only value there or the others average to it |
| Alerts.NegativeSinceFindsNothing | internal/api/alerts_service.go:188-191 | a negative duration finds no value, except -2^63, whose negation wraps around, for rows of the last 2^63 nanoseconds |
| Alerts.LatestIsNotTheValue | internal/api/alerts_service.go:170-274 | without a duration, 0 and then 30 in the last minute give 15 |
| Alerts.DisabledAreNotReported | internal/api/alerts_service.go:65-149 | every reported alert belongs to an enabled device that fires, and carries that device's name and condition |
| Alerts.AverageBrackets | internal/api/alerts_service.go:203-210 | an average above a bound needs a value above it and follows from all values being above; below likewise |
| Alerts.AlertsFollowData | internal/api/alerts_service.go:293-320 | an above or below alert is certain when all values are on the alerting side, and implies one that is, exactly when some cell is not NULL or zero is safe |
| Alerts.FiringBySum | internal/api/alerts_service.go:293-320 | an alert fires if and only if the sum of the values in the window is above, below or (for is and equals) equal to the threshold times their number, one zero standing for none; any other operator and a threshold that is no number never fire |
| Alerts.EqualValuesFire | internal/api/alerts_service.go:293-320 | equal values fire if and only if each of them meets the condition |
| EndToEnd.CellIsSensed | internal/api/alerts_service.go:277-290 | the cell the query reads under a column is the corrected telemetry value, so both sides agree on tables and columns |
| EndToEnd.SensedReal | internal/tasmota/utils.go:84-101 | a temperature or humidity is stored as the raw value plus the device's correction, and as NULL exactly when the message lacks it |
| EndToEnd.BatteryIsSensed | internal/database/valve_handler.go:132-146 | the battery row holds the corrected battery percentage; rooms have none |
| EndToEnd.LinkQualityIsSensed | internal/database/valve_handler.go:147-160 | the link-quality row holds the corrected link quality |
| EndToEnd.SensedInteger | internal/tasmota/utils.go:105-120 | an integer reaches the alert as the 64-bit sum of raw value and truncated correction, which is the true sum if and only if that fits, exactly up to 2^53 and else within the stated error |
| EndToEnd.AlertFollowsTelemetry | internal/api/alerts_service.go:163-320 | after a store with no other row in the window, the alert of every device of that name and type that names a column fires if and only if the corrected value of that column is above, below or equal to the threshold, as its operator says |
| EndToEnd.OtherStoresKeepAlert | internal/api/alerts_service.go:163-274 | any stores for other names or other types leave an alert, its value and its time as they are |
| EndToEnd.TelemetryThenAlerts | internal/tasmota/telemetry_handler.go:77-234 | the same through the modelled entry and then the alert query, which lists devices for itself: a device with the name and type of the entry's device, in whatever namespace, is reported if and only if it passes the filters and the corrected value of the column it names meets its operator and threshold, where one database serves its type and holds no other row of it in the window |

## Left out

- Real goroutine scheduling: steps are atomic at the granularity of the locks, and an `onConnect` callback subscribes to all its topics in one step.
- Stores in `Handlers`, `Manager` and `Ingest` are atomic; `ConcurrentStores` splits them once, after the lookup. Whether the devices table has a unique index is up to a library that is not part of this model.
- Primary keys: measurement and side rows stand in key order without their key, and a refused insert leaves no gap in the device keys.
- Float64 rounding of temperatures, humidities, corrections and averages, and NaN and infinities as thresholds or corrections: these are reals.
- Alerts.MeasurementValue: a measurement name that is not a column of the table, such as a key column or an SQL expression, counts as a failing statement; the alert query reads the tables at one moment.
- Alerts.AlertsService.CollectAlerts: the tests inside the loop of the source stand in a method of their own, so that an early exit of one turn is a return of that method.
- Telemetry.BuildPayload: the corrected integer wraps around as a 64-bit int; a 32-bit build is not modelled.
- BridgeManager.BridgeManager.HandleMessage: decoding the JSON payload is an optional message given as a parameter, and zigbee2mqtt and generic bridges only log.
- Building DSNs, TLS configurations, certificates, secrets, connection limits and migrations, beyond their failure exits.
- The bridge watcher (`internal/watcher/mqttbridge_watcher.go`): the same shape as the database watcher with a weaker filter.
- Dispatcher.Dispatcher.Dispatch: of a registered handler other than the telemetry handler only the answer is known, not what it changes.
- A telemetry handler without a database manager, which stores nothing.
- HTTP server, middleware, response encoding, health checks, logging and command-line flags.
- The helpers of `internal/tasmota/utils.go` that nothing calls (label and number formatting, reflection, a second alert evaluation).
