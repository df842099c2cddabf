# mysql-databus: the binlog consumption loop of canal/sync.go

This project models, in Dafny, the part of the canal package that consumes a
MySQL binlog stream and decides, event by event, what to call and when to
record the replication position:

- `startSyncBinlog`: starts the syncer at the master's position, then loops
  fetching one event at a time. A fetch timeout doubles a backoff Duration; a
  fetch error ends the loop. Every fetched event resets the backoff to one
  second and takes its offset from the event header. The event is then
  classified:
  - a rotation moves to the next file and forces the save;
  - a rows event goes to `handleRowsEvent`;
  - an XID commit is only recorded;
  - a query event matters only when the `expAlterTable` pattern recognises an
    `ALTER TABLE`;
  - every other kind is skipped.
  Recorded events end with `c.master.Update` then `c.master.Save(force)`.
- a recognised `ALTER TABLE` acts on the schema it names or, when it names
  none, on the query event's own schema.
- `handleRowsEvent` and `handleQueryEvent`: `GetTable` first, then the event
  type decides the row action (WRITE, DELETE and UPDATE rows events in their v1
  and v2 encodings), and the matching handler chain is called.
- the `expAlterTable` detector: a case-insensitive `ALTER` whitespace `TABLE`
  whitespace prefix, then an optional schema and a table, each optionally
  quoted with backticks.
- `WaitUntilPos`: polls the master's position every 100ms until it compares at
  least the target, or until a timer fires (60 seconds when the timeout given
  is not positive).

Modules:

- `Positions` (positions.dfy): `mysql.Position` with its uint32 offset, and
  `Compare`.
- `Binlog` (binlog.dfy): the fetch results, the event kinds and codes, the
  collaborators' replies, the calls the loop makes (`Effect`) and its errors.
- `Handlers` (handlers.dfy): `handleRowsEvent`, `handleQueryEvent` and the row
  action mapping.
- `AlterTable`, `AlterTableShapes` (alter_table.dfy): the detector. It is a
  deterministic scanner that yields the captures Go's leftmost-first regexp
  engine yields. It is proved to succeed exactly when a declarative
  description of the pattern's language matches (`AlterMatches`).
- `Sync` (sync.dfy): the specification of one iteration (`StepOf`) and of a
  run of iterations (`RunTicks`). It also holds the class `Canal`, whose
  methods are the loop itself; they update the master's position and append
  to the list of calls made, and are proved to behave as `RunTicks`.
- `SyncProperties` (sync_properties.dfy): what an iteration and a run
  guarantee, against independent descriptions of the events.
- `Wait` (wait.dfy): `WaitUntilPos`.

Where the loop's comments or its design intent and the code differ, the model
follows the code:

- An `ALTER TABLE` on a filtered table still clears the table cache, because
  `ClearTableCache` runs before the filter checks. It is then recorded with an
  unforced save, since `forceSavePos` was reset to false for this event.
- Nothing keeps positions monotonic. The offset is overwritten from every
  fetched event's header, including skipped ones, and the next recorded event
  saves it (`SyncProperties.OffsetMayDecrease`).
- Rows events are recorded with an `Update` and an unforced `Save` after
  each one, not only at the XID that ends the transaction.
- The doubled backoff is never read: the fetch deadline is a fixed two
  seconds. The backoff is modelled, wrap-around included, because the code
  computes it.

`mysql.Position.Compare` belongs to go-mysql, which is not part of this model.
It is assumed to order positions by file name (lexically, by character
code) and then by offset.

## Model

| member | source | states |
|---|---|---|
| Positions.Truncate32 | canal/sync.go:60 | the uint32 conversion of a rotation's 64-bit position keeps its low 32 bits, and leaves values below 2^32 unchanged |
| Positions.Compare | canal/sync.go:176 | the assumed position order: the result is -1, 0 or 1; it is 0 exactly for equal positions; within one file it orders by offset |
| Positions.AtLeastTotalOrder | canal/sync.go:176 | "compares at least" is reflexive, total, antisymmetric and transitive |
| Handlers.RowAction | canal/sync.go:150-159 | the event-type switch never yields the ALTER action |
| Handlers.RowActionInverse | canal/sync.go:150-159 | a type maps to an action exactly when it is that action's v1 or v2 code; it maps to nothing exactly outside the six codes; the v0 codes are unsupported |
| Handlers.HandleRowsEvent | canal/sync.go:138-162 | GetTable is called first and its failure is returned before the type is examined; an unsupported type is an error that dispatches nothing; a supported one calls the handlers with its action; success exactly when the table is found, the type is supported and the handlers succeed; no master update or save |
| Handlers.HandleQueryEvent | canal/sync.go:120-136 | GetTable first, its failure returned; otherwise the query handlers are called; success exactly when the table is found and the handlers succeed |
| AlterTable.DetectAlterTable | canal/sync.go:17 | a match needs the ALTER, whitespace, TABLE, whitespace prefix (case-insensitive); the captured table is non-empty and holds no backtick or dot; the schema holds no newline |
| AlterTable.DetectIffMatches | canal/sync.go:17 | the scanner finds captures exactly when the pattern's language (prefix, optional quoted or dotted schema, table, closing whitespace) matches the statement |
| AlterTableShapes.DetectsPlainTable | canal/sync.go:17 | `ALTER TABLE t ...` with a plain name captures an empty schema and the table t |
| AlterTableShapes.DetectsQuotedQualifiedTable | canal/sync.go:17 | ``ALTER TABLE `s`.`t` ...`` captures schema s and table t without their backticks |
| Sync.Double | canal/sync.go:38 | doubling a Duration is exact while no overflow occurs, and otherwise wraps around modulo 2^64 |
| Sync.RunStopsAtFailure | canal/sync.go:42-44 | once an iteration has returned an error, later fetch results change neither the calls made nor the result |
| Sync.MasterAfterEnds | canal/sync.go:113-114 | calls that end with an Update of a position and a Save leave the master at that position |
| Sync.Canal.Update | canal/sync.go:113 | the master takes the position, and the call is appended |
| Sync.Canal.Save | canal/sync.go:114 | the save is appended with its force flag; the position is unchanged |
| Sync.Canal.Record | canal/sync.go:113-114 | an Update of the position then a Save; the master holds the position |
| Sync.Canal.ClearTableCache | canal/sync.go:81 | the cache clear for schema and table is appended; the master is unchanged |
| Sync.Canal.Iteration | canal/sync.go:33-114 | one pass of the loop body computes the next locals, the calls and the error of `StepOf`; the master ends at the last position updated |
| Sync.Canal.Event | canal/sync.go:49-114 | the event-kind switch with the final Update and Save behaves as `EventStep` |
| Sync.Canal.Rows | canal/sync.go:64-70 | a rows event is handled and, unless that fails, recorded with an unforced save, as `RowsStep` says |
| Sync.Canal.Alter | canal/sync.go:78-104 | a recognised ALTER clears the cache, then records filtered tables unforced or calls the query handlers and records with a forced save, as `AlterStep` says |
| Sync.Canal.Consume | canal/sync.go:30-115 | the loop over the fetch results returns the error of `RunTicks` and makes exactly its calls, in order |
| Sync.Canal.StartSyncBinlog | canal/sync.go:20-118 | starts at the master's position; a StartSync failure returns at once; otherwise the result and the calls are those of the loop |
| SyncProperties.StepLocals | canal/sync.go:37-60 | a timeout doubles the backoff and keeps the position; a fetched event resets the backoff to one second; the offset comes from the header and only a rotation changes the file, to its next name and truncated position |
| SyncProperties.StepOutcome | canal/sync.go:37-111 | an iteration returns an error exactly on a fetch error, a failed rows event or a failed handling of an unfiltered ALTER; nothing is called when no event was fetched |
| SyncProperties.StepSaves | canal/sync.go:51-114 | the master is written only after a recorded event that did not fail, by one Update of the new position and one Save, forced exactly for a rotation or an unfiltered ALTER; timeouts, fetch errors, skipped queries, other events and failures write nothing |
| SyncProperties.RowsStepSaves | canal/sync.go:64-72 | a handled rows event ends with an Update of its position and an unforced Save; a failed one writes nothing |
| SyncProperties.AlterStepSaves | canal/sync.go:81-104 | a recognised ALTER ends with an Update and a Save forced exactly when the table is not filtered; a failed one writes nothing |
| SyncProperties.AlterClearsCacheFirst | canal/sync.go:81-101 | the cache clear comes first even for filtered tables; the query handlers are reached exactly for an unfiltered table that GetTable finds |
| SyncProperties.AlterUsesEventSchema | canal/sync.go:77-98 | a recognised ALTER acts on the schema it names or, when it names none, on the query event's own schema: the cache clear comes first with that schema, an unfiltered table's GetTable follows with it, and the query handlers get it exactly for an unfiltered table that GetTable finds |
| SyncProperties.RowsDispatch | canal/sync.go:145-161 | a rows event reaches the handlers for an action exactly when its table is found and its type is one of that action's codes |
| SyncProperties.OffsetMayDecrease | canal/sync.go:49 | an event whose header offset is smaller moves the loop's position backwards and that position is saved |
| SyncProperties.TimeoutsDouble | canal/sync.go:37-40 | k consecutive timeouts make no call, keep the position and double the backoff k times |
| SyncProperties.DoublingExact | canal/sync.go:30-38 | from one second, up to 33 doublings are exact: 2^k seconds |
| SyncProperties.StepDispatch | canal/sync.go:64-72 | a cleanly applying rows event or XID continues the loop; its rows-handler calls are exactly the one its type and table call for, and none for an XID |
| SyncProperties.TransactionOrder | canal/sync.go:53-72 | a run of cleanly applying rows events and XIDs does not stop and calls the rows handlers once per rows event, in binlog order |
| SyncProperties.StartFailureCallsNothing | canal/sync.go:25-28 | a StartSync failure returns an error naming the start position, before any call |
| SyncProperties.MasterFollowsLastRecorded | canal/sync.go:113-114 | after a run whose last event was recorded, the master holds the position the loop reached |
| Wait.MulWrap | canal/sync.go:169 | multiplying Durations is exact while no overflow occurs, and otherwise wraps around modulo 2^64 |
| Wait.TimerDuration | canal/sync.go:165-169 | a timeout that is not positive means 60 seconds; a positive one below the overflow bound is that many seconds |
| Wait.WaitUntilPos | canal/sync.go:164-185 | the polling loop returns success exactly when `Poll` ends by reaching the target, and otherwise the error naming the target |
| Wait.PollFacts | canal/sync.go:170-182 | every poll before the last found the master behind the target with the timer running; success exactly at a poll that sees a position at least the target before the timer fires; an error exactly when the timer has fired |
| Wait.PollsBounded | canal/sync.go:170-182 | the wait ends within one poll per 100ms of the timer's duration, plus the first |
| Wait.OverflowingTimeoutFails | canal/sync.go:169-173 | a timeout of 9223372037 seconds or more (below 2^64 ns) wraps to a negative duration, so the wait fails at the first select without polling |

## Left out

- `CatchMasterPos` and `GetMasterPos` are glue around `SHOW MASTER STATUS`, a SQL query, and are not part of this model.
- Logging is left out: it has no effect on the loop.
- Time is an input. Each fetch result is given as `DeadlineExceeded`, an error or an event. `WaitUntilPos` takes the elapsed time at each select and the master position each poll reads. `context.WithTimeout`, `time.NewTimer` and `time.Sleep` are not modelled.
- Wait.WaitUntilPos: the timer counts as fired at a select once the elapsed time reaches its duration; Go's channel delivery may lag behind that instant, and this is not modelled.
- The collaborators are oracles. For each event, `Replies` says whether `GetTable` finds the table and whether the handler chain succeeds. Their internals, `newRowsEvent`, `newQueryEvent`, how `Save` stores a position and the arguments `Update` receives besides the name and offset are not modelled.
- `mysql.Position.Compare` is given a body under the assumption stated above.
- Sync.Canal.StartSyncBinlog: the source loop never ends without an error; the model runs over a finite sequence of fetch results and returns no error when they are used up.
- Sync.Canal.Consume: as for StartSyncBinlog, the run is over a finite sequence of fetch results.
- `FilterTabs` and `Cfg_Tc` are global maps in the source; here they are an immutable `Filters` value, and only `FilterTabs`' values and `Cfg_Tc`'s keys are used, as in the code.
- Strings are sequences of characters. The detector's case-insensitive match of `ALTER` and `TABLE` accepts the ASCII letters in either case, and none of these letters has another Unicode case fold. Bytes that are not valid UTF-8 are not modelled.
- The rows of a rows event are carried as opaque values; the row images and the handler events built from them are not modelled.
