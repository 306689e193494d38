# SQL worker protocol of the SQLite viewer

The viewer page runs its SQL engine in a worker. The two talk over a
message channel:

- The page (`data/viewer/sql/sql.js`, class `SQL`) posts each request
  under a fresh correlation id `mid`. It keeps a `msgs` table of pending
  calls, and its worker listener settles each call when the matching reply
  arrives.
- The worker (`data/viewer/sql/worker.js`) keeps two registries. `dbs`
  holds open databases and `statements` holds prepared statements. It
  dispatches on `data.request` (`open`, `prepare`, `step`, `delete`,
  `exec`, `buffer`) and replies with the request object, the results
  merged into it.
- `step(start, end)` pages through a statement. It advances the cursor up
  to `end` times and keeps the rows whose iteration index is `>= start`.
  Once the cursor is exhausted it reports `done` and drops the statement.

The model is functional. Registries and the pending table are immutable
maps, and each handler is a pure transition function. The engine's
statement is a cursor over a `seq<Row>`, and message delivery is a
function call.

Modules, one per component:

- `Values`: cell values, rows, ids, parameters, JavaScript truthiness of an
  optional string, and `Concat` (`flat()` at depth one).
- `Pagination`: the cursor, the reference definition `Window` of one
  step, the worker's loop `RunStep` proved equal to it, and `Batches`, the
  batches of repeated `step(0, n)` calls.
- `Protocol`: requests, envelopes (request plus `mid`), reply payloads, and
  the reply `id` after merging.
- `Dispatcher`: the registries, their invariant, one handler per request
  kind, and `Dispatch`.
- `WorkerProperties`: properties that span several requests, including
  draining a statement.
- `Correlation`: the `msgs` table, `post`, the worker listener, and event
  traces with settle-once.
- `Handles`: the database and statement objects that `open` and `prepare`
  resolve to.
- `RoundTrip`: one call end to end, and the file-read finding below.

Modelling choices:

- Ids come from `Math.random` in the source. Here a counter stands in for
  them, so freshness is an invariant of the counter.
- Database ids and statement ids are separate constructors, mirroring the
  `sql:` and `stmt:` prefixes.
- `Undefined` is the `undefined` id that a handle holds when it was built
  from a reply that has no `id` field.
- The engine is a parameter made of three total functions: `prepare`
  (rows or an error message), `exec` (result sets or an error message) and
  `serialize` (the `export` of a database).
- Whether a fetch or a file read succeeds is an input, `LoadOutcome`.
- Some handlers throw outside any `try`. The worker then posts nothing and
  changes nothing, and the model says so with a missing reply. This is not
  a precondition, because the handler does run:
  - `step` on an unknown or expired id with `end > 0` throws at the
    first `stmt.step()` (worker.js:64), so the caller's call stays
    pending.
  - `step` on an unknown id with `end <= 0` never touches the statement,
    so it replies with an empty, not-done batch.
  - `buffer` on an unknown database throws.
  - `prepare` and `exec` on an unknown database throw inside their `try`,
    so they reply with an error.
- Every worker handler requires the registry invariant `Dispatcher.Valid`:
  ids carry their kind and were handed out before, and every statement's
  database is live. The empty registry satisfies it and `Dispatch`
  preserves it, so every reachable registry does.
- The worker posts no progress messages: the `fetch` path at
  worker.js:17-24 only posts the final `id` or `error`. So `Dispatch` never
  produces a progress payload. The page's listener still routes any
  progress message it receives (sql.js:30-35), and that routing is
  modelled.

## Model

| member | source | states |
|---|---|---|
| Pagination.Window | data/viewer/sql/worker.js:63-75 | A step advances the cursor by min(end, remaining) and never by a negative amount. It keeps every row in engine order. `done` holds exactly when fewer than `end` rows remained, and then nothing is left ahead. The batch is never longer than what was ahead. `start >= end` records nothing, and `end <= 0` moves nothing and is not done. |
| Pagination.LoopBody | data/viewer/sql/worker.js:64-69 | One iteration: `stmt.step()` finds a row exactly when one is left, and then `getAsObject()` of that row is recorded exactly when `i >= start`. A failed step changes neither the cursor nor the batch. |
| Pagination.RunStep | data/viewer/sql/worker.js:63-75 | The source's loop returns exactly the reference step's rows, `done` flag and cursor. The loop calls `stmt.step()` up to `end` times, records `getAsObject()` only when `i >= start`, and stops at the first failed step. |
| Pagination.BatchesCoverRows | data/viewer/sql/worker.js:62-76 | Repeated `step(0, n)` calls, stopped at the first `done`, return batches whose concatenation is exactly the rows ahead of the cursor. Every batch but the last has exactly `n` rows and the last has fewer. |
| Dispatcher.HandleOpen | data/viewer/sql/worker.js:15-41 | With no truthy `href` and no `file`, open registers exactly one fresh, empty database and replies with its id. After a successful fetch or read it registers one fresh database holding the loaded bytes. A failed load replies with the failure's message and registers nothing. Statements are untouched. |
| Dispatcher.HandleOpenAsWritten | data/viewer/sql/worker.js:26-37 | As written, a failed file read replies with an undefined `error` and registers nothing. Every other case behaves like `HandleOpen`. Like `HandleOpen`, it keeps the registry invariant and leaves statements untouched. |
| Dispatcher.HandlePrepare | data/viewer/sql/worker.js:43-54 | Prepare replies with an error exactly when the database id is unknown or the engine rejects the statement, and then `statements` is unchanged. Otherwise it adds exactly one fresh statement id, bound to that database, with all of the engine's rows ahead of its cursor. Databases are untouched. |
| Dispatcher.HandleStep | data/viewer/sql/worker.js:55-77 | On a live statement, step returns the rows at relative indices `start .. k-1` of what was ahead, where `k = min(end, remaining)`. `done` holds exactly when fewer than `end` rows remained, and exactly then the id leaves `statements`. Otherwise the cursor moves by `k`. No other statement and no database changes. On an unknown id nothing changes, and there is a reply exactly when `end <= 0`: an empty, not-done batch. |
| Dispatcher.HandleDelete | data/viewer/sql/worker.js:78-81 | Delete always replies with no result fields, removes the id from `statements`, and leaves every other statement and every database as it was. |
| Dispatcher.HandleExec | data/viewer/sql/worker.js:82-93 | Exec never changes the registries. It replies with the engine's result sets on success. It replies with an error exactly when the database is unknown or the engine fails. The error carries the engine's message, or the lookup `TypeError`'s message for an unknown database. |
| Dispatcher.HandleBuffer | data/viewer/sql/worker.js:94-98 | Buffer never changes the registries. It replies with the database's export exactly when the database id is known, and otherwise gives no reply. |
| Dispatcher.Dispatch | data/viewer/sql/worker.js:13-99 | Every reply echoes its request and its `mid`. The registry invariant is preserved: ids are fresh and every statement's database is live. Databases are never released. Only `prepare` adds statements and only `open` changes `dbs`. There is no reply exactly for `step` on an unknown id with `end > 0` and for `buffer` on an unknown database, and then nothing changes. The id counter never goes back. |
| WorkerProperties.Serve | data/viewer/sql/worker.js:13-99 | Handling any sequence of requests in order keeps the registry invariant, and the id counter never goes back. |
| WorkerProperties.GoneStaysGone | data/viewer/sql/worker.js:43-47 | A statement id that was handed out and is no longer registered stays unregistered after any sequence of requests, because `prepare` only registers fresh ids. |
| WorkerProperties.PrepareStartsAtFirstRow | data/viewer/sql/worker.js:43-54 | A successful prepare grows `statements` by exactly one entry, and its cursor holds all of the engine's rows ahead. |
| WorkerProperties.DeleteIdempotent | data/viewer/sql/worker.js:78-81 | Deleting twice leaves the same registry and reply as deleting once. |
| WorkerProperties.ProbeMovesNothing | data/viewer/sql/worker.js:63-67 | `step(start, 0)` on a live statement returns no rows and `done = false`, and changes nothing. |
| WorkerProperties.StepAfterDone | data/viewer/sql/worker.js:55-77 | After a step reports `done`, the statement is gone. A delete right after succeeds without changing anything. After any further sequence of requests, prepares included, the id is still unregistered and a step on it with `end > 0` gets no reply. |
| WorkerProperties.ExactFitNeedsOneMoreStep | data/viewer/sql/worker.js:63-75 | When exactly `n` rows remain, `step(0, n)` returns them all with `done = false`. The next `step(0, n)` returns an empty batch with `done = true`. |
| WorkerProperties.DrainFollowsCursor | data/viewer/sql/worker.js:55-77 | Sequential `step(0, n)` requests through the worker yield the cursor's batches. Afterwards the registry is the old one minus exactly that statement. |
| WorkerProperties.DrainReturnsEveryRow | data/viewer/sql/worker.js:62-76 | Draining a statement through the worker returns every remaining row once, in order, in batches of at most `n` rows, and removes the statement. |
| Correlation.Post | data/viewer/sql/sql.js:11-20 | Post records the call under a `mid` that was not pending, before sending, and the sent message carries that `mid` and the request. |
| Correlation.Receive | data/viewer/sql/sql.js:22-47 | The listener touches only the entry for the message's `mid`. A `mid` with no record is ignored and the table is unchanged. A progress message never settles; it reaches the callback exactly when one was given, and the record stays. Any other message for a pending `mid` settles it and removes it. It rejects with `error` exactly when `error` is truthy, and otherwise resolves with the message itself. A progress message without a callback, or for an unknown `mid`, has no effect. |
| Correlation.NoSettleAfterRemoval | data/viewer/sql/sql.js:27-43 | A `mid` that is no longer pending is never settled by any later sequence of calls and messages. |
| Correlation.SettledAtMostOnce | data/viewer/sql/sql.js:37-43 | Along any sequence of calls and messages, no `mid` is settled twice. |
| Correlation.SettledWasCalled | data/viewer/sql/sql.js:11-43 | Every settlement answers a call: its `mid` was pending at the start, or an earlier call in the sequence posted it. |
| Correlation.ProgressThenTerminal | data/viewer/sql/sql.js:30-43 | A progress message leaves the table unchanged, and a later terminal message for the same `mid` still settles the call. |
| Handles.OpenedDatabase | data/viewer/sql/sql.js:55-56 | The database object `open` resolves to holds the new database's id from the reply, and `undefined` when the reply carries no id. |
| Handles.PreparedStatement | data/viewer/sql/sql.js:64-65 | The statement object `prepare` resolves to holds the new statement's id from the reply. A reply without a new id still carries the request's database id, because the reply is the request with fields merged in. |
| Handles.StepRequest | data/viewer/sql/sql.js:67-74 | `step()` sends `start = 0` and `end = 1` when they are omitted, passes explicit values through, and targets the statement's own id. |
| Handles.TablesOf | data/viewer/sql/sql.js:84-93 | `tables()` yields `0` exactly when the query returned no result set, and a list of names when it returned one. When the reply has no `results` field the expression throws. |
| Handles.BufferOf | data/viewer/sql/sql.js:94-99 | `buffer()` yields the reply's `buffer` bytes, and a value exactly when the reply carries that field. |
| Handles.FlatOneColumn | data/viewer/sql/sql.js:92 | Flattening one-column rows gives the column, value for value, in row order. |
| Handles.FlatMembership | data/viewer/sql/sql.js:92 | A value is in the flattened list exactly when some row holds it. |
| Handles.TablesListsFirstColumn | data/viewer/sql/sql.js:84-92 | For the one-column catalog query, `tables()` lists one name per row of the first result set, in order. |
| RoundTrip.Call | data/viewer/sql/sql.js:11-47 | A call is posted under a `mid` that was not pending. If the worker replies, the reply carries that `mid` and request, settles exactly that call, and leaves the pending table as it was before the call. If the worker throws, the call stays pending. |
| RoundTrip.OpenThenPrepare | data/viewer/sql/sql.js:50-66 | `open()` with no source resolves to a handle on a fresh, empty database. `prepare` through that handle resolves to a handle on a new statement, bound to that database and holding all of the engine's rows. |
| RoundTrip.DefaultStepReturnsNextRow | data/viewer/sql/sql.js:67-74 | `step()` with its defaults on a live statement resolves with the next row and `done = false` while rows remain, and moves the cursor by one. On an exhausted cursor it resolves with an empty batch and `done = true`, and the statement is gone. |
| RoundTrip.DeleteRoundTrip | data/viewer/sql/sql.js:75-80 | `delete()` always resolves with no result fields. Afterwards the statement is gone, whether or not it was still registered, and databases are unchanged. |
| RoundTrip.TablesRoundTrip | data/viewer/sql/sql.js:84-93 | `tables()` on a live database resolves to `0` when the catalog query returns no result set, and otherwise to the first result set's rows, flattened. An engine error with a non-empty message rejects with it, and an unknown database rejects with the lookup error. The registries are unchanged. |
| RoundTrip.BufferRoundTrip | data/viewer/sql/sql.js:94-99 | `buffer()` on a live database resolves to the engine's export of that database. On an unknown database the worker throws and the call stays pending. The registries are unchanged. |
| RoundTrip.FailedPrepareRejects | data/viewer/sql/worker.js:45-53 | A prepare the engine rejects with a non-empty message rejects the caller's promise with that message and registers nothing. |
| RoundTrip.OpenFileAsWritten | data/viewer/sql/worker.js:32-35 | As written, a failed file read resolves the caller's `open` to a handle with an undefined id and registers no database. |
| RoundTrip.FileReadFailureResolvesAsWritten | data/viewer/sql/worker.js:32-35 | Concrete case of the above: an unreadable file, opened from the initial state, resolves `open` with an undefined id. |
| RoundTrip.FileReadFailureRejects | data/viewer/sql/worker.js:32-35 | With the read error's message in the reply, a failed file read rejects the caller's `open` with that message and registers no database. |

## Findings

| source | as written | input that shows it | evidently intended | confidence | as-written member | corrected member |
|---|---|---|---|---|---|---|
| data/viewer/sql/worker.js:32-35 | `reader.onerror` gets a progress event, which has no `message`, so it posts `error: undefined`. The page treats a falsy `error` as success and resolves `open` with the reply, which has no `id`. | `open({file})` with a file the reader cannot read | The read error's message is posted, and the caller's `open` is rejected | medium, not executed | RoundTrip.FileReadFailureResolvesAsWritten | RoundTrip.FileReadFailureRejects |

The as-written worker is `Dispatcher.HandleOpenAsWritten`. The corrected
`Dispatcher.HandleOpen`, which `Dispatch` uses, posts the read error's
message.

## Left out

- I/O and scheduling are left out: `fetch`, `FileReader`, `Worker`,
  `postMessage` and promise scheduling. An `open` from a URL or a file
  completes in a later event. The model folds that completion into the
  request's own turn, so requests handled in between are not interleaved
  with it.
- The SQL engine is an input. Its parsing and execution, and any writes a
  statement makes to a database, are not modelled. Databases are
  immutable values.
- `new SQL.Database(bytes)` is assumed not to throw. If it throws inside
  the file reader's `onload`, the real worker posts no reply, and the
  model does not show that.
- `Math.random` ids are replaced by a counter. Random ids could collide,
  and the model does not reproduce that.
- The `ready` handshake is only partly modelled. The worker's start-up
  message is the `Ready` case of `Correlation.Receive`, which sets the
  table's `ready` flag. `SQL.ready()` itself is not modelled
  (sql.js:7-49). It creates the `Worker` and installs `post` and the
  listener, and each call made before the handshake completes starts
  another worker. The model has one worker and one table from the start.
- `stmt.step()` is assumed not to throw. It can throw on an engine runtime
  error part-way through the loop, or on a statement the engine has
  already freed; the engine's `export()`, used by `buffer`, frees a
  database's statements. Then worker.js:64 throws outside any `try`. No
  reply is posted, the caller's call never settles, and the statement
  stays registered with its cursor partly advanced. `Dispatcher.HandleStep`
  always replies on a registered id.
- The worker silently ignores a message whose `request` is not one of the
  six kinds. The model has no such request.
- `console.error` logging is left out.
- Handles.TablesOf: its own contract does not name the list for a
  non-empty answer. `RoundTrip.TablesRoundTrip` states it as the first
  result set flattened, and `Handles.TablesListsFirstColumn` states it for
  the catalog query's one-column rows.
