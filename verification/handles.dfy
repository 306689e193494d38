/** The handle-based API the page uses: a database object with `prepare`,
    `tables` and `buffer`, and a statement object with `step` and `delete`.
    Each builds one request and reads the fields it needs from the reply. */
module Handles {
  import opened Values
  import opened Protocol

  datatype DbHandle = DbHandle(id: Id)
  datatype StmtHandle = StmtHandle(id: Id)

  /** What `tables()` resolves to: the number `0` when the query returned no
      result set, else the flattened rows of the first one. */
  datatype Tables = Zero | Names(names: seq<Value>)

  /** The catalog query `tables()` runs. The source writes it as a template
      literal spread over several indented lines; here its whitespace is
      normalised to single spaces, which the engine treats alike. */
  const TablesQuery := "SELECT name FROM sqlite_master WHERE type IN ('table','view') AND name NOT LIKE 'sqlite_%' ORDER BY 1"

  function OpenRequest(href: Option<string>, file: Option<FileRef>): Request {
    Open(href, file)
  }

  /** The database object `open` resolves to keeps the reply's `id`: the new
      database's id on success, and `undefined` when the reply carries no id. */
  function OpenedDatabase(reply: Reply): (h: DbHandle)
    ensures reply.payload.WithId? ==> h.id == reply.payload.newId
    ensures reply.request.Open? && !reply.payload.WithId? ==> h.id == Undefined
  {
    DbHandle(ReplyId(reply))
  }

  function PrepareRequest(h: DbHandle, sql: string, params: Params): Request {
    Prepare(h.id, sql, params)
  }

  /** The statement object `prepare` resolves to keeps the reply's `id`. The
      reply merges into the request, so a reply without a new id still
      carries the request's database id. */
  function PreparedStatement(reply: Reply): (h: StmtHandle)
    ensures reply.payload.WithId? ==> h.id == reply.payload.newId
    ensures reply.request.Prepare? && !reply.payload.WithId? ==> h.id == reply.request.id
  {
    StmtHandle(ReplyId(reply))
  }

  /** `step(start = 0, end = 1)`: an omitted argument takes its default. */
  function StepRequest(h: StmtHandle, start: Option<int>, end: Option<int>): (r: Request)
    ensures r.Step? && r.id == h.id
    ensures start.None? ==> r.start == 0
    ensures end.None? ==> r.end == 1
    ensures start.Some? ==> r.start == start.value
    ensures end.Some? ==> r.end == end.value
  {
    Step(h.id, if start.Some? then start.value else 0, if end.Some? then end.value else 1)
  }

  function DeleteRequest(h: StmtHandle): Request {
    Delete(h.id)
  }

  function TablesRequest(h: DbHandle): Request {
    Exec(h.id, TablesQuery, NoParams)
  }

  /** `o.results.length && o.results[0].values.flat()`; `None` when the reply
      has no `results` and the expression throws. */
  function TablesOf(reply: Reply): (r: Option<Tables>)
    ensures r.Some? <==> reply.payload.ExecResult?
    ensures r.Some? ==> (r.value.Zero? <==> reply.payload.sets == [])
  {
    if !reply.payload.ExecResult? then None
    else if |reply.payload.sets| == 0 then Some(Zero)
    else Some(Names(Concat(reply.payload.sets[0].values)))
  }

  function BufferRequest(h: DbHandle): Request {
    Buffer(h.id)
  }

  /** `o.buffer`; `None` stands for `undefined`. */
  function BufferOf(reply: Reply): (r: Option<Bytes>)
    ensures r.Some? <==> reply.payload.BufferResult?
    ensures r.Some? ==> r.value == reply.payload.buffer
  {
    if reply.payload.BufferResult? then Some(reply.payload.buffer) else None
  }

  /** For the one-column catalog query, `tables()` lists the names in the
      order the first result set holds them. */
  lemma {:induction false} FlatOneColumn(rows: seq<seq<Value>>)
    requires forall i :: 0 <= i < |rows| ==> |rows[i]| == 1
    ensures |Concat(rows)| == |rows|
    ensures forall i :: 0 <= i < |rows| ==> Concat(rows)[i] == rows[i][0]
    decreases |rows|
  {
    if rows != [] {
      FlatOneColumn(rows[1..]);
      assert Concat(rows) == rows[0] + Concat(rows[1..]);
      forall i | 0 <= i < |rows|
        ensures Concat(rows)[i] == rows[i][0]
      {
        if i > 0 {
          assert Concat(rows)[i] == Concat(rows[1..])[i - 1];
          assert rows[1..][i - 1] == rows[i];
        }
      }
    }
  }

  /** `flat()` loses and invents nothing: a value is in the flattened list
      exactly when some row holds it. */
  lemma {:induction false} FlatMembership(rows: seq<seq<Value>>, v: Value)
    ensures v in Concat(rows) <==> exists i :: 0 <= i < |rows| && v in rows[i]
    decreases |rows|
  {
    if rows != [] {
      FlatMembership(rows[1..], v);
      assert Concat(rows) == rows[0] + Concat(rows[1..]);
      if v in Concat(rows[1..]) {
        var i :| 0 <= i < |rows[1..]| && v in rows[1..][i];
        assert v in rows[i + 1];
      }
      if exists i :: 0 <= i < |rows| && v in rows[i] {
        var i :| 0 <= i < |rows| && v in rows[i];
        if i > 0 {
          assert v in rows[1..][i - 1];
        }
      }
    }
  }

  /** The catalog query's tables: `Zero` for no result set, otherwise one
      name per row of the first result set, in order. */
  lemma TablesListsFirstColumn(reply: Reply)
    requires reply.payload.ExecResult? && reply.payload.sets != []
    requires forall i :: 0 <= i < |reply.payload.sets[0].values| ==> |reply.payload.sets[0].values[i]| == 1
    ensures var r := TablesOf(reply);
      var rows := reply.payload.sets[0].values;
      && r.Some? && r.value.Names?
      && |r.value.names| == |rows|
      && forall i :: 0 <= i < |rows| ==> r.value.names[i] == rows[i][0]
  {
    FlatOneColumn(reply.payload.sets[0].values);
  }
}
