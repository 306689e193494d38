/** Properties of the worker that relate several requests. */
module WorkerProperties {
  import opened Values
  import opened Pagination
  import opened Protocol
  import opened Dispatcher

  /** The worker's state after a fresh `prepare` holds the statement's whole
      row sequence ahead of its cursor. */
  lemma PrepareStartsAtFirstRow(engine: Engine, g: Registry, db: Id, sql: string, params: Params)
    requires Valid(g)
    requires db in g.dbs && engine.prepare(g.dbs[db], sql, params).Ok?
    ensures var o := HandlePrepare(engine, g, db, sql, params);
      o.payload.Some? && o.payload.value.WithId?
      && o.registry.statements[o.payload.value.newId].cursor.ahead == engine.prepare(g.dbs[db], sql, params).value
      && |o.registry.statements| == |g.statements| + 1
  {
  }

  /** `delete` twice leaves the registry as `delete` once. */
  lemma DeleteIdempotent(g: Registry, id: Id)
    requires Valid(g)
    ensures HandleDelete(HandleDelete(g, id).registry, id) == HandleDelete(g, id)
  {
  }

  /** `step` with `end == 0` is a probe: no rows, not done, nothing moves. */
  lemma ProbeMovesNothing(g: Registry, id: Id, start: int)
    requires Valid(g) && id in g.statements
    ensures HandleStep(g, id, start, 0) == Outcome(g, Some(StepResult([], false)))
  {
    var s := g.statements[id];
    assert Window(s.cursor, start, 0).cursor == s.cursor;
    assert g.statements[id := s] == g.statements;
  }

  /** The worker's registry after it has handled `envs` in order, the `i`th
      open request finding its URL or file as `ios[i]` says. */
  function Serve(engine: Engine, g: Registry, envs: seq<Envelope>, ios: seq<LoadOutcome>): (r: Registry)
    requires Valid(g) && |ios| == |envs|
    ensures Valid(r)
    ensures r.nextId >= g.nextId
    decreases |envs|
  {
    if envs == [] then g
    else Serve(engine, Dispatch(engine, g, envs[0], ios[0]).registry, envs[1..], ios[1..])
  }

  /** A statement id that was handed out and is no longer registered is never
      registered again, whatever requests follow: ids are never reused. */
  lemma {:induction false} GoneStaysGone(engine: Engine, g: Registry, envs: seq<Envelope>, ios: seq<LoadOutcome>, id: Id)
    requires Valid(g) && |ios| == |envs|
    requires id.StmtId? && id.n < g.nextId && id !in g.statements
    ensures id !in Serve(engine, g, envs, ios).statements
    decreases |envs|
  {
    if envs != [] {
      var h := Dispatch(engine, g, envs[0], ios[0]);
      assert id !in h.registry.statements;
      GoneStaysGone(engine, h.registry, envs[1..], ios[1..], id);
    }
  }

  /** Once a step reports `done`, the statement is gone for good: `delete`
      still succeeds, and after any further requests a `step` with a
      positive `end` gets no reply. */
  lemma StepAfterDone(engine: Engine, g: Registry, id: Id, start: int, end: int,
                      envs: seq<Envelope>, ios: seq<LoadOutcome>, start': int, end': int)
    requires Valid(g) && id in g.statements && |ios| == |envs|
    requires var o := HandleStep(g, id, start, end); o.payload.value.done
    ensures var g' := HandleStep(g, id, start, end).registry;
      && id !in g'.statements
      && HandleDelete(g', id).registry == g'
      && id !in Serve(engine, g', envs, ios).statements
      && (end' > 0 ==> HandleStep(Serve(engine, g', envs, ios), id, start', end').payload.None?)
  {
    GoneStaysGone(engine, HandleStep(g, id, start, end).registry, envs, ios, id);
  }

  /** When exactly `end` rows remain the step is not done; the next step
      returns an empty batch with `done` set. */
  lemma ExactFitNeedsOneMoreStep(g: Registry, id: Id, n: nat)
    requires Valid(g) && id in g.statements && n > 0
    requires |g.statements[id].cursor.ahead| == n
    ensures var o := HandleStep(g, id, 0, n);
      && o.payload.value == StepResult(g.statements[id].cursor.ahead, false)
      && HandleStep(o.registry, id, 0, n).payload.value == StepResult([], true)
  {
  }

  /** The worker's answers to `step(0, n)` requests issued one after another
      until one reports `done`, and the registry afterwards. */
  function Drain(g: Registry, id: Id, n: nat): (seq<seq<Row>>, Registry)
    requires Valid(g) && id in g.statements && n > 0
    decreases |g.statements[id].cursor.ahead|
  {
    var o := HandleStep(g, id, 0, n);
    var p := o.payload.value;
    if p.done then ([p.results], o.registry)
    else
      var rest := Drain(o.registry, id, n);
      ([p.results] + rest.0, rest.1)
  }

  /** Draining a statement through the worker yields the cursor's batches and
      removes exactly that statement from the registry. */
  lemma {:induction false} DrainFollowsCursor(g: Registry, id: Id, n: nat)
    requires Valid(g) && id in g.statements && n > 0
    ensures Drain(g, id, n).0 == Batches(g.statements[id].cursor, n)
    ensures Drain(g, id, n).1.dbs == g.dbs
    ensures Drain(g, id, n).1.statements == g.statements - {id}
    decreases |g.statements[id].cursor.ahead|
  {
    var c := g.statements[id].cursor;
    var o := HandleStep(g, id, 0, n);
    var b := Window(c, 0, n);
    assert o.payload.value.results == b.results;
    if !o.payload.value.done {
      assert o.registry.statements[id].cursor == b.cursor;
      DrainFollowsCursor(o.registry, id, n);
      assert o.registry.statements - {id} == g.statements - {id};
    }
  }

  /** Sequential `step(0, n)` calls on a statement return, joined, exactly the
      rows still ahead of its cursor (all of them for a freshly prepared
      statement), and leave no trace of it in the registry. */
  lemma DrainReturnsEveryRow(g: Registry, id: Id, n: nat)
    requires Valid(g) && id in g.statements && n > 0
    ensures Concat(Drain(g, id, n).0) == g.statements[id].cursor.ahead
    ensures forall j :: 0 <= j < |Drain(g, id, n).0| ==> |Drain(g, id, n).0[j]| <= n
    ensures id !in Drain(g, id, n).1.statements
  {
    DrainFollowsCursor(g, id, n);
    BatchesCoverRows(g.statements[id].cursor, n);
  }
}
