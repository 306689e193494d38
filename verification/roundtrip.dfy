/** The page and the worker together: a call is posted, the worker handles
    it in one turn of its event loop, and its reply (if any) reaches the
    page's listener. */
module RoundTrip {
  import opened Values
  import opened Protocol
  import opened Dispatcher
  import opened Correlation
  import opened Handles

  datatype System = System(table: Table, registry: Registry)

  predicate Valid(s: System) {
    Correlation.Valid(s.table) && Dispatcher.Valid(s.registry)
  }

  /** One call end to end: the `mid` it was posted under, the worker's reply
      and what the reply did on the page. */
  datatype Exchange = Exchange(system: System, mid: Mid, reply: Option<Reply>, effect: Effect)

  function Arrive(s: System, mid: Mid, h: Handled): (x: Exchange) {
    if h.reply.Some? then
      var r := Receive(s.table, Message(h.reply.value));
      Exchange(System(r.0, h.registry), mid, h.reply, r.1)
    else Exchange(System(s.table, h.registry), mid, None, Ignored)
  }

  function Call(engine: Engine, s: System, request: Request, hasProgress: bool, io: LoadOutcome): (x: Exchange)
    requires Valid(s)
    ensures Valid(x.system)
    ensures x.mid !in s.table.msgs
    ensures x.reply.Some? ==>
      && x.reply.value.mid == x.mid && x.reply.value.request == request
      && Settles(x.effect) && x.effect.mid == x.mid
      && x.system.table.msgs == s.table.msgs
    ensures x.reply.None? ==>
      x.effect == Ignored && x.system.table.msgs == s.table.msgs[x.mid := Pending(request, hasProgress)]
  {
    var p := Post(s.table, request, hasProgress);
    var h := Dispatch(engine, s.registry, p.1, io);
    var x := Arrive(System(p.0, s.registry), p.1.mid, h);
    assert p.0.msgs - {p.1.mid} == s.table.msgs;
    x
  }

  /** `open` with neither URL nor file resolves to a handle on a new empty
      database, and `prepare` through that handle registers a statement on
      it that holds all of the engine's rows. */
  lemma OpenThenPrepare(engine: Engine, s: System, io: LoadOutcome, sql: string, params: Params, io': LoadOutcome)
    requires Valid(s)
    requires engine.prepare(EmptyDatabase, sql, params).Ok?
    ensures var x := Call(engine, s, OpenRequest(None, None), false, io);
      && x.effect.Resolved?
      && var db := OpenedDatabase(x.effect.reply);
      && x.system.registry.dbs.Keys == s.registry.dbs.Keys + {db.id}
      && db.id !in s.registry.dbs
      && x.system.registry.dbs[db.id] == EmptyDatabase
      && var y := Call(engine, x.system, PrepareRequest(db, sql, params), false, io');
      && y.effect.Resolved?
      && var st := PreparedStatement(y.effect.reply);
      && st.id in y.system.registry.statements
      && st.id !in x.system.registry.statements
      && y.system.registry.statements[st.id].db == db.id
      && y.system.registry.statements[st.id].cursor.ahead == engine.prepare(EmptyDatabase, sql, params).value
  {
  }

  /** A failing `prepare` rejects the call and registers nothing. */
  lemma FailedPrepareRejects(engine: Engine, s: System, db: DbHandle, sql: string, params: Params, io: LoadOutcome)
    requires Valid(s)
    requires db.id in s.registry.dbs
    requires engine.prepare(s.registry.dbs[db.id], sql, params).Err?
    requires engine.prepare(s.registry.dbs[db.id], sql, params).message != ""
    ensures var x := Call(engine, s, PrepareRequest(db, sql, params), false, io);
      && x.effect == Rejected(x.mid, engine.prepare(s.registry.dbs[db.id], sql, params).message)
      && x.system.registry.statements == s.registry.statements
      && x.system.registry.dbs == s.registry.dbs
  {
  }

  /** `open` of a file as written: the page's listener and the worker's
      reply for a failed read. */
  function OpenFileAsWritten(s: System, href: Option<string>, file: Option<FileRef>, io: LoadOutcome): (x: Exchange)
    requires Valid(s)
    ensures !Truthy(href) && file.Some? && io.LoadFailed? ==>
      x.effect.Resolved? && OpenedDatabase(x.effect.reply).id == Undefined
      && x.system.registry.dbs == s.registry.dbs
  {
    var request := OpenRequest(href, file);
    var p := Post(s.table, request, false);
    var o := HandleOpenAsWritten(s.registry, href, file, io);
    var h := Handled(o.registry, if o.payload.Some? then Some(Reply(p.1.mid, request, o.payload.value)) else None);
    Arrive(System(p.0, s.registry), p.1.mid, h)
  }

  /** Counterexample: reading a file fails, yet the caller's `open` resolves,
      with a database handle whose id is undefined. */
  lemma FileReadFailureResolvesAsWritten()
    ensures var s := System(Correlation.Initial, Dispatcher.Initial);
      var x := OpenFileAsWritten(s, None, Some(FileRef("broken.sqlite")), LoadFailed("NotReadableError"));
      && x.effect.Resolved?
      && OpenedDatabase(x.effect.reply).id == Undefined
      && x.system.registry.dbs == map[]
  {
  }

  /** With the read error's message in the reply, a failed read rejects the
      caller's `open` with that message and registers no database. */
  lemma FileReadFailureRejects(engine: Engine, s: System, href: Option<string>, file: Option<FileRef>, message: string)
    requires Valid(s)
    requires file.Some? && message != ""
    ensures var x := Call(engine, s, OpenRequest(href, file), false, LoadFailed(message));
      && x.effect == Rejected(x.mid, message)
      && x.system.registry.dbs == s.registry.dbs
  {
  }

  /** `step()` with its defaults on a live statement: the next row and not
      done while rows remain, else an empty batch with `done` and the
      statement gone. */
  lemma DefaultStepReturnsNextRow(engine: Engine, s: System, st: StmtHandle, io: LoadOutcome)
    requires Valid(s) && st.id in s.registry.statements
    ensures var ahead := s.registry.statements[st.id].cursor.ahead;
      var x := Call(engine, s, StepRequest(st, None, None), false, io);
      && x.effect.Resolved?
      && (ahead != [] ==>
            x.effect.reply.payload == StepResult([ahead[0]], false)
            && x.system.registry.statements[st.id].cursor.ahead == ahead[1..])
      && (ahead == [] ==>
            x.effect.reply.payload == StepResult([], true) && st.id !in x.system.registry.statements)
  {
  }

  /** `delete()` always resolves, and the statement is gone afterwards
      whether or not it was still registered. */
  lemma DeleteRoundTrip(engine: Engine, s: System, st: StmtHandle, io: LoadOutcome)
    requires Valid(s)
    ensures var x := Call(engine, s, DeleteRequest(st), false, io);
      && x.effect.Resolved? && x.effect.reply.payload == NoFields
      && x.system.registry.statements == s.registry.statements - {st.id}
      && x.system.registry.dbs == s.registry.dbs
  {
  }

  /** `tables()` on a database handle: the catalog query's first result set
      flattened, or `0` when the engine returned no result set; an engine
      error or an unknown database rejects the call. */
  lemma TablesRoundTrip(engine: Engine, s: System, db: DbHandle, io: LoadOutcome)
    requires Valid(s)
    ensures var x := Call(engine, s, TablesRequest(db), false, io);
      && x.system.registry == s.registry
      && (db.id !in s.registry.dbs ==> x.effect == Rejected(x.mid, MissingDatabase))
      && (db.id in s.registry.dbs ==>
            var e := engine.exec(s.registry.dbs[db.id], TablesQuery, NoParams);
            && (e.Ok? && e.value == [] ==> x.effect.Resolved? && TablesOf(x.effect.reply) == Some(Zero))
            && (e.Ok? && e.value != [] ==>
                  x.effect.Resolved? && TablesOf(x.effect.reply) == Some(Names(Concat(e.value[0].values))))
            && (e.Err? && e.message != "" ==> x.effect == Rejected(x.mid, e.message)))
  {
  }

  /** `buffer()` on a live database resolves to the engine's export of it;
      on an unknown database the worker throws and the call never settles. */
  lemma BufferRoundTrip(engine: Engine, s: System, db: DbHandle, io: LoadOutcome)
    requires Valid(s)
    ensures var x := Call(engine, s, BufferRequest(db), false, io);
      && x.system.registry == s.registry
      && (db.id in s.registry.dbs ==>
            x.effect.Resolved? && BufferOf(x.effect.reply) == Some(engine.serialize(s.registry.dbs[db.id])))
      && (db.id !in s.registry.dbs ==> x.reply.None? && x.mid in x.system.table.msgs)
  {
  }
}
