/** The statement cursor and the `step` pagination loop of the worker. */
module Pagination {
  import opened Values

  /** An engine cursor over a statement's rows: `seen` have been stepped over,
      `ahead` are still to come. The engine's `stmt.step()` moves one row. */
  datatype Cursor = Cursor(seen: seq<Row>, ahead: seq<Row>) {

    /** Every row the statement produces, in engine order. */
    function Rows(): seq<Row> {
      seen + ahead
    }

    /** `stmt.step()`: true and one row further when a row remains, false otherwise. */
    function Advance(): (bool, Cursor) {
      if ahead == [] then (false, this)
      else (true, Cursor(seen + [ahead[0]], ahead[1..]))
    }

    /** `stmt.getAsObject()`: the row the cursor currently stands on. */
    function Current(): Row
      requires seen != []
    {
      seen[|seen| - 1]
    }
  }

  /** What one `step(start, end)` request yields. */
  datatype Batch = Batch(results: seq<Row>, done: bool, cursor: Cursor)

  function Clamp(x: int, lo: nat, hi: nat): (r: nat)
    requires lo <= hi
    ensures lo <= r <= hi
  {
    if x < lo then lo else if x > hi then hi else x
  }

  /** Reference definition of a step: the cursor moves `k = min(end, r)` rows
      (none when `end <= 0`), and the batch is the rows at relative indices
      `start .. k-1` of what was ahead. */
  function Window(c: Cursor, start: int, end: int): (b: Batch)
    ensures b.cursor.Rows() == c.Rows()
    ensures |b.cursor.seen| == |c.seen| + Clamp(end, 0, |c.ahead|)
    ensures b.done <==> |c.ahead| < end
    ensures b.done ==> b.cursor.ahead == []
    ensures |b.results| <= |c.ahead|
    ensures start >= end ==> b.results == []
    ensures end <= 0 ==> b.cursor == c && !b.done
  {
    var k := Clamp(end, 0, |c.ahead|);
    var s := Clamp(start, 0, k);
    Batch(c.ahead[s..k], |c.ahead| < end, Cursor(c.seen + c.ahead[..k], c.ahead[k..]))
  }

  lemma SliceSnoc<T>(s: seq<T>, lo: nat, i: nat)
    requires lo <= i < |s|
    ensures s[lo..i + 1] == s[lo..i] + [s[i]]
  {
  }

  /** How far a step moved and whether it hit the end fix the whole batch. */
  lemma WindowAt(c: Cursor, start: int, end: int, i: nat, done: bool)
    requires i <= |c.ahead|
    requires done ==> i == |c.ahead| < end
    requires !done ==> i == Clamp(end, 0, |c.ahead|) && end <= |c.ahead|
    ensures Window(c, start, end) == Batch(c.ahead[Clamp(start, 0, i)..i], done, Cursor(c.seen + c.ahead[..i], c.ahead[i..]))
  {
  }

  /** The cursor after `i` steps of a loop over `c`. */
  function After(c: Cursor, i: nat): Cursor
    requires i <= |c.ahead|
  {
    Cursor(c.seen + c.ahead[..i], c.ahead[i..])
  }

  /** The rows the loop has recorded after `i` iterations. */
  function Recorded(c: Cursor, start: int, i: nat): seq<Row>
    requires i <= |c.ahead|
  {
    c.ahead[Clamp(start, 0, i)..i]
  }

  /** The state of the loop after `i` iterations that all found a row. */
  predicate Iterated(c: Cursor, start: int, i: nat, after: Cursor, results: seq<Row>) {
    i <= |c.ahead| && after == After(c, i) && results == Recorded(c, start, i)
  }

  /** One iteration: when the loop has not reached the end, `stmt.step()`
      finds row `i`, `getAsObject()` returns it, and it is recorded exactly
      when `i >= start`. */
  lemma LoopIteration(c: Cursor, start: int, i: nat, after: Cursor, results: seq<Row>)
    requires Iterated(c, start, i, after, results)
    ensures after.Advance().0 <==> i < |c.ahead|
    ensures after.Advance().0 ==> after.Advance().1.seen != []
    ensures after.Advance().0 ==>
      Iterated(c, start, i + 1, after.Advance().1,
        if i >= start then results + [after.Advance().1.Current()] else results)
  {
    if i < |c.ahead| {
      SeqSnoc(c.seen, c.ahead, i);
      if i >= start {
        SliceSnoc(c.ahead, Clamp(start, 0, i), i);
      }
    }
  }

  lemma SeqSnoc<T>(a: seq<T>, b: seq<T>, i: nat)
    requires i < |b|
    ensures (a + b[..i]) + [b[i..][0]] == a + b[..i + 1]
    ensures b[i..][1..] == b[i + 1..]
  {
    SliceSnoc(b, 0, i);
    assert b[..i + 1] == b[0..i + 1];
  }

  /** Before the first iteration nothing is stepped over or recorded. */
  lemma LoopStart(c: Cursor, start: int)
    ensures Iterated(c, start, 0, c, [])
  {
    assert c.seen + c.ahead[..0] == c.seen && c.ahead[0..] == c.ahead;
  }

  /** The loop's state when it stops, after `i` iterations, determines the
      reference step's whole batch. */
  lemma LoopExit(c: Cursor, start: int, end: int, i: nat, after: Cursor, results: seq<Row>, done: bool)
    requires Iterated(c, start, i, after, results)
    requires done ==> i == |c.ahead| < end
    requires !done ==> (i == 0 || i <= end) && end <= i
    ensures Batch(results, done, after) == Window(c, start, end)
  {
    WindowAt(c, start, end, i, done);
  }

  /** The body of the worker's loop: `stmt.step()`, then `getAsObject()`
      when the step found a row and `i >= start`. */
  method LoopBody(ghost c: Cursor, start: int, i: nat, stmt: Cursor, results: seq<Row>)
    returns (valid: bool, stmt': Cursor, results': seq<Row>)
    requires Iterated(c, start, i, stmt, results)
    ensures valid <==> i < |c.ahead|
    ensures valid ==> Iterated(c, start, i + 1, stmt', results')
    ensures !valid ==> stmt' == stmt && results' == results
  {
    LoopIteration(c, start, i, stmt, results);
    var next := stmt.Advance();
    valid := next.0;
    if valid {
      stmt' := next.1;
      results' := if i >= start then results + [stmt'.Current()] else results;
    } else {
      stmt', results' := stmt, results;
    }
  }

  /** The worker's `for (let i = 0; i < end; i += 1)` loop over `stmt.step()`,
      recording `getAsObject()` only for `i >= start` and stopping at the
      first failed step. */
  method RunStep(c: Cursor, start: int, end: int) returns (results: seq<Row>, done: bool, after: Cursor)
    ensures Batch(results, done, after) == Window(c, start, end)
  {
    results := [];
    done := false;
    after := c;
    var i := 0;
    LoopStart(c, start);
    while i < end
      invariant i == 0 || i <= end
      invariant i <= |c.ahead|
      invariant Iterated(c, start, i, after, results)
    {
      var valid;
      valid, after, results := LoopBody(c, start, i, after, results);
      if !valid {
        done := true;
        break;
      }
      i := i + 1;
    }
    LoopExit(c, start, end, i, after, results, done);
  }

  /** The batches a caller collects by calling `step(0, n)` on a fresh
      cursor position until a batch reports `done`. */
  function Batches(c: Cursor, n: nat): seq<seq<Row>>
    requires n > 0
    decreases |c.ahead|
  {
    var b := Window(c, 0, n);
    if b.done then [b.results] else [b.results] + Batches(b.cursor, n)
  }

  /** Sequential `step(0, n)` calls return every remaining row exactly once,
      in cursor order: every batch but the last is full, and the last one is
      short (possibly empty). */
  lemma {:induction false} BatchesCoverRows(c: Cursor, n: nat)
    requires n > 0
    ensures Concat(Batches(c, n)) == c.ahead
    ensures |Batches(c, n)| > 0
    ensures |Batches(c, n)[|Batches(c, n)| - 1]| < n
    ensures forall j :: 0 <= j < |Batches(c, n)| - 1 ==> |Batches(c, n)[j]| == n
    decreases |c.ahead|
  {
    var b := Window(c, 0, n);
    if b.done {
      assert Batches(c, n) == [b.results];
      assert Concat([b.results]) == b.results + Concat<Row>([]);
      Concat1(b.results);
    } else {
      BatchesCoverRows(b.cursor, n);
      var rest := Batches(b.cursor, n);
      assert Batches(c, n) == [b.results] + rest;
      assert ([b.results] + rest)[1..] == rest;
      assert b.results == c.ahead[..n];
      assert b.cursor.ahead == c.ahead[n..];
      SplitAt(c.ahead, n);
    }
  }

  lemma Concat1<T>(s: seq<T>)
    ensures Concat([s]) == s
  {
  }

  lemma SplitAt<T>(s: seq<T>, n: nat)
    requires n <= |s|
    ensures s[..n] + s[n..] == s
  {
  }
}
