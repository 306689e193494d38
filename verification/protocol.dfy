/** Messages exchanged by the viewer page and the SQL worker. */
module Protocol {
  import opened Values

  /** A `File` object picked by the user; only its identity matters here. */
  datatype FileRef = FileRef(name: string)

  /** The `request` field of a message and the fields that go with it. */
  datatype Request =
    | Open(href: Option<string>, file: Option<FileRef>)
    | Prepare(id: Id, statement: string, params: Params)
    | Step(id: Id, start: int, end: int)
    | Delete(id: Id)
    | Exec(id: Id, statement: string, params: Params)
    | Buffer(id: Id)

  /** A request as posted to the worker, tagged with its correlation id `mid`. */
  datatype Envelope = Envelope(mid: Mid, request: Request)

  /** The fields a worker reply adds to the request object it echoes. */
  datatype Payload =
    | WithId(newId: Id)
    | StepResult(results: seq<Row>, done: bool)
    | NoFields
    | ExecResult(sets: seq<ResultSet>)
    | BufferResult(buffer: Bytes)
    | ErrorField(error: Option<string>)
    | ProgressField(loaded: nat, total: nat)

  /** A reply: the request object (with its `mid`) with the payload merged in. */
  datatype Reply = Reply(mid: Mid, request: Request, payload: Payload)

  /** What the page's worker listener can receive. */
  datatype Inbound = Ready | Message(reply: Reply)

  /** The `id` field a request carries (`open` carries none). */
  function RequestId(r: Request): Id {
    if r.Open? then Undefined else r.id
  }

  /** The `id` field of a reply: merging `{id}` overwrites the request's own id. */
  function ReplyId(r: Reply): Id {
    if r.payload.WithId? then r.payload.newId else RequestId(r.request)
  }
}
