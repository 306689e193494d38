/** Values that travel between the viewer page and its SQL worker. */
module Values {

  /** A scalar cell value produced by the database engine. */
  datatype Value = Null | Integer(i: int) | Real(mantissa: int, exponent: int) | Text(s: string) | Blob(b: seq<bv8>)

  type Bytes = seq<bv8>

  /** A row as `getAsObject` returns it: column name to value. */
  type Row = map<string, Value>

  /** One result set of a one-shot `exec`: column names and rows of values. */
  datatype ResultSet = ResultSet(columns: seq<string>, values: seq<seq<Value>>)

  /** Bind parameters passed through to the engine untouched. */
  datatype Params = NoParams | Positional(args: seq<Value>) | Named(named: map<string, Value>)

  /** Opaque handle ids. The worker prefixes database ids with `sql:` and
      statement ids with `stmt:`, so the two kinds never collide; `Undefined`
      is the JavaScript `undefined` a handle holds when it was built from a
      reply that carried no `id` field. */
  datatype Id = DbId(n: nat) | StmtId(n: nat) | Undefined

  /** Correlation ids of requests. */
  type Mid = nat

  datatype Result<T> = Ok(value: T) | Err(message: string)

  /** JavaScript truthiness of an optional string field (`undefined` and `""` are falsy). */
  predicate Truthy(s: Option<string>) {
    s.Some? && s.value != ""
  }

  datatype Option<T> = None | Some(value: T)

  /** A list of lists joined in order (JavaScript's `flat()` at depth one). */
  function Concat<T>(bs: seq<seq<T>>): seq<T> {
    if bs == [] then [] else bs[0] + Concat(bs[1..])
  }
}
