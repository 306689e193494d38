/** The worker side: the `dbs` and `statements` registries and the
    `onmessage` dispatcher over `data.request`. */
module Dispatcher {
  import opened Values
  import opened Pagination
  import opened Protocol

  /** An engine database: created empty or from the bytes of a file. */
  datatype Database = EmptyDatabase | Image(bytes: Bytes)

  /** A prepared statement, owned by the database it was prepared on. */
  datatype Statement = Statement(db: Id, cursor: Cursor)

  /** The SQL engine as seen by the worker. `prepare` and `exec` may fail
      with an engine message; a prepared statement is its cursor. */
  datatype Engine = Engine(
    prepare: (Database, string, Params) -> Result<seq<Row>>,
    exec: (Database, string, Params) -> Result<seq<ResultSet>>,
    serialize: Database -> Bytes)

  /** How fetching a URL or reading a file ended. */
  datatype LoadOutcome = Loaded(bytes: Bytes) | LoadFailed(message: string)

  /** The worker's registries; `nextId` stands for the random id source. */
  datatype Registry = Registry(dbs: map<Id, Database>, statements: map<Id, Statement>, nextId: nat)

  /** The registry after one handler and the fields it posts (`None`: the
      handler threw outside a `try`, so nothing is posted). */
  datatype Outcome = Outcome(registry: Registry, payload: Option<Payload>)

  datatype Handled = Handled(registry: Registry, reply: Option<Reply>)

  const Initial := Registry(map[], map[], 0)

  /** Stands for the message of the `TypeError` raised when a handler calls a
      method on a missing database ("Cannot read properties of undefined
      (reading 'prepare')", or `'exec'`); only its being non-empty matters. */
  const MissingDatabase := "Cannot read properties of undefined"

  /** Registry invariant: ids carry their kind's prefix and were handed out
      before, and every statement's database is live. */
  predicate Valid(g: Registry) {
    && (forall k :: k in g.dbs ==> k.DbId? && k.n < g.nextId)
    && (forall k :: k in g.statements ==> k.StmtId? && k.n < g.nextId && g.statements[k].db in g.dbs)
  }

  /** `open`: fetch a URL, read a file, or create an empty database. */
  function HandleOpen(g: Registry, href: Option<string>, file: Option<FileRef>, io: LoadOutcome): (o: Outcome)
    requires Valid(g)
    ensures Valid(o.registry)
    ensures o.registry.statements == g.statements
    ensures o.payload.Some? && (o.payload.value.WithId? || o.payload.value.ErrorField?)
    ensures o.payload.value.WithId? ==>
      var id := o.payload.value.newId;
      id !in g.dbs && id in o.registry.dbs && o.registry.dbs == g.dbs[id := o.registry.dbs[id]]
    ensures o.payload.value.ErrorField? ==> o.registry.dbs == g.dbs
    ensures !Truthy(href) && file.None? ==>
      o.payload.value.WithId? && o.registry.dbs[o.payload.value.newId] == EmptyDatabase
    ensures (Truthy(href) || file.Some?) && io.Loaded? ==>
      o.payload.value.WithId? && o.registry.dbs[o.payload.value.newId] == Image(io.bytes)
    ensures (Truthy(href) || file.Some?) && io.LoadFailed? ==>
      o.payload == Some(ErrorField(Some(io.message)))
  {
    var id := DbId(g.nextId);
    var g1 := g.(nextId := g.nextId + 1);
    if Truthy(href) || file.Some? then
      match io
      case Loaded(bytes) => Outcome(g1.(dbs := g.dbs[id := Image(bytes)]), Some(WithId(id)))
      case LoadFailed(message) => Outcome(g1, Some(ErrorField(Some(message))))
    else
      Outcome(g1.(dbs := g.dbs[id := EmptyDatabase]), Some(WithId(id)))
  }

  /** `open` as written: a failed `FileReader` hands `onerror` a progress
      event, which has no `message`, so the reply's `error` is undefined. */
  function HandleOpenAsWritten(g: Registry, href: Option<string>, file: Option<FileRef>, io: LoadOutcome): (o: Outcome)
    requires Valid(g)
    ensures Valid(o.registry)
    ensures o.registry.statements == g.statements
    ensures !Truthy(href) && file.Some? && io.LoadFailed? ==>
      o.payload == Some(ErrorField(None)) && o.registry.dbs == g.dbs
    ensures !(!Truthy(href) && file.Some? && io.LoadFailed?) ==> o == HandleOpen(g, href, file, io)
  {
    if !Truthy(href) && file.Some? && io.LoadFailed? then
      Outcome(g.(nextId := g.nextId + 1), Some(ErrorField(None)))
    else
      HandleOpen(g, href, file, io)
  }

  /** `prepare`: compile a statement on a database and register it. */
  function HandlePrepare(engine: Engine, g: Registry, db: Id, sql: string, params: Params): (o: Outcome)
    requires Valid(g)
    ensures Valid(o.registry)
    ensures o.registry.dbs == g.dbs
    ensures o.payload.Some? && (o.payload.value.WithId? || o.payload.value.ErrorField?)
    ensures o.payload.value.ErrorField? <==> db !in g.dbs || engine.prepare(g.dbs[db], sql, params).Err?
    ensures o.payload.value.ErrorField? ==>
      o.registry.statements == g.statements && Truthy(o.payload.value.error) == (db in g.dbs ==> engine.prepare(g.dbs[db], sql, params).message != "")
    ensures o.payload.value.WithId? ==>
      var id := o.payload.value.newId;
      id !in g.statements && id !in g.dbs
      && o.registry.statements == g.statements[id := Statement(db, Cursor([], engine.prepare(g.dbs[db], sql, params).value))]
  {
    var id := StmtId(g.nextId);
    var g1 := g.(nextId := g.nextId + 1);
    if db !in g.dbs then
      Outcome(g1, Some(ErrorField(Some(MissingDatabase))))
    else
      match engine.prepare(g.dbs[db], sql, params)
      case Ok(rows) => Outcome(g1.(statements := g.statements[id := Statement(db, Cursor([], rows))]), Some(WithId(id)))
      case Err(message) => Outcome(g1, Some(ErrorField(Some(message))))
  }

  /** `step`: run the pagination loop on a statement; drop it once exhausted.
      On an unknown id the loop's first `stmt.step()` throws, so a positive
      `end` gets no reply while `end <= 0` never touches the statement. */
  function HandleStep(g: Registry, id: Id, start: int, end: int): (o: Outcome)
    requires Valid(g)
    ensures Valid(o.registry)
    ensures o.registry.dbs == g.dbs
    ensures id !in g.statements ==> o.registry == g
    ensures id !in g.statements ==> (o.payload.None? <==> end > 0)
    ensures id !in g.statements && end <= 0 ==> o.payload == Some(StepResult([], false))
    ensures id in g.statements ==>
      var c := g.statements[id].cursor;
      var k := Clamp(end, 0, |c.ahead|);
      && o.payload.Some? && o.payload.value.StepResult?
      && o.payload.value.results == c.ahead[Clamp(start, 0, k)..k]
      && (o.payload.value.done <==> |c.ahead| < end)
      && o.registry.statements - {id} == g.statements - {id}
      && (o.payload.value.done <==> id !in o.registry.statements)
      && (!o.payload.value.done ==>
            o.registry.statements[id] == Statement(g.statements[id].db, Cursor(c.seen + c.ahead[..k], c.ahead[k..])))
  {
    if id !in g.statements then
      if end <= 0 then Outcome(g, Some(StepResult([], false))) else Outcome(g, None)
    else
      var s := g.statements[id];
      var b := Window(s.cursor, start, end);
      var statements := if b.done then g.statements - {id} else g.statements[id := s.(cursor := b.cursor)];
      Outcome(g.(statements := statements), Some(StepResult(b.results, b.done)))
  }

  /** `delete`: forget a statement if present; always an empty success. */
  function HandleDelete(g: Registry, id: Id): (o: Outcome)
    requires Valid(g)
    ensures Valid(o.registry)
    ensures o.payload == Some(NoFields)
    ensures o.registry.dbs == g.dbs
    ensures id !in o.registry.statements
    ensures forall k :: k != id ==> (k in o.registry.statements <==> k in g.statements)
    ensures forall k :: k in o.registry.statements ==> o.registry.statements[k] == g.statements[k]
  {
    Outcome(g.(statements := g.statements - {id}), Some(NoFields))
  }

  /** `exec`: a one-shot query; every failure is caught and posted. */
  function HandleExec(engine: Engine, g: Registry, db: Id, sql: string, params: Params): (o: Outcome)
    requires Valid(g)
    ensures o.registry == g
    ensures o.payload.Some?
    ensures db in g.dbs && engine.exec(g.dbs[db], sql, params).Ok? ==>
      o.payload.value == ExecResult(engine.exec(g.dbs[db], sql, params).value)
    ensures o.payload.value.ErrorField? <==> db !in g.dbs || engine.exec(g.dbs[db], sql, params).Err?
    ensures db !in g.dbs ==> o.payload.value == ErrorField(Some(MissingDatabase))
    ensures db in g.dbs && engine.exec(g.dbs[db], sql, params).Err? ==>
      o.payload.value == ErrorField(Some(engine.exec(g.dbs[db], sql, params).message))
  {
    if db !in g.dbs then Outcome(g, Some(ErrorField(Some(MissingDatabase))))
    else
      match engine.exec(g.dbs[db], sql, params)
      case Ok(sets) => Outcome(g, Some(ExecResult(sets)))
      case Err(message) => Outcome(g, Some(ErrorField(Some(message))))
  }

  /** `buffer`: export a database; an unknown id throws outside any `try`. */
  function HandleBuffer(engine: Engine, g: Registry, db: Id): (o: Outcome)
    requires Valid(g)
    ensures o.registry == g
    ensures o.payload.Some? <==> db in g.dbs
    ensures db in g.dbs ==> o.payload.value == BufferResult(engine.serialize(g.dbs[db]))
  {
    if db in g.dbs then Outcome(g, Some(BufferResult(engine.serialize(g.dbs[db])))) else Outcome(g, None)
  }

  /** The `onmessage` dispatcher: route on the request kind, then post the
      request object with the handler's fields merged in. */
  function Dispatch(engine: Engine, g: Registry, env: Envelope, io: LoadOutcome): (h: Handled)
    requires Valid(g)
    ensures Valid(h.registry)
    ensures g.dbs.Keys <= h.registry.dbs.Keys
    ensures h.reply.Some? ==> h.reply.value.mid == env.mid && h.reply.value.request == env.request
    ensures h.reply.None? <==>
      (env.request.Step? && env.request.id !in g.statements && env.request.end > 0)
      || (env.request.Buffer? && env.request.id !in g.dbs)
    ensures h.reply.None? ==> h.registry == g
    ensures !env.request.Prepare? ==> h.registry.statements.Keys <= g.statements.Keys
    ensures !env.request.Open? ==> h.registry.dbs == g.dbs
    ensures h.registry.nextId >= g.nextId
  {
    var o := match env.request
      case Open(href, file) => HandleOpen(g, href, file, io)
      case Prepare(db, sql, params) => HandlePrepare(engine, g, db, sql, params)
      case Step(id, start, end) => HandleStep(g, id, start, end)
      case Delete(id) => HandleDelete(g, id)
      case Exec(db, sql, params) => HandleExec(engine, g, db, sql, params)
      case Buffer(db) => HandleBuffer(engine, g, db);
    Handled(o.registry, if o.payload.Some? then Some(Reply(env.mid, env.request, o.payload.value)) else None)
  }
}
