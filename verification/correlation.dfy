/** The page side: the `msgs` table of pending calls keyed by correlation
    id, `post`, and the worker listener that settles them. */
module Correlation {
  import opened Values
  import opened Protocol

  /** A pending call: its promise's `resolve`/`reject`, and whether the
      caller supplied a `progress` callback. */
  datatype Pending = Pending(request: Request, hasProgress: bool)

  /** The `msgs` table; `nextMid` stands for the random id source. */
  datatype Table = Table(msgs: map<Mid, Pending>, nextMid: nat, ready: bool)

  /** What handling one event did to the callers. */
  datatype Effect =
    | Sent(mid: Mid)
    | BecameReady
    | Progressed(mid: Mid, loaded: nat, total: nat)
    | Resolved(mid: Mid, reply: Reply)
    | Rejected(mid: Mid, message: string)
    | Ignored

  predicate Settles(e: Effect) {
    e.Resolved? || e.Rejected?
  }

  const Initial := Table(map[], 0, false)

  /** Pending correlation ids were all handed out before. */
  predicate Valid(t: Table) {
    forall m :: m in t.msgs ==> m < t.nextMid
  }

  /** `post`: record the call under a fresh `mid`, then send the request
      tagged with it. */
  function Post(t: Table, request: Request, hasProgress: bool): (r: (Table, Envelope))
    requires Valid(t)
    ensures Valid(r.0)
    ensures r.1.request == request
    ensures r.1.mid !in t.msgs
    ensures r.0.msgs == t.msgs[r.1.mid := Pending(request, hasProgress)]
    ensures r.0.ready == t.ready
  {
    var mid := t.nextMid;
    (Table(t.msgs[mid := Pending(request, hasProgress)], t.nextMid + 1, t.ready), Envelope(mid, request))
  }

  /** The worker listener. A progress message reaches the progress callback
      and keeps the call pending; any other message for a pending `mid`
      rejects it when `error` is truthy and resolves it otherwise, then
      drops the record; a message for an unknown `mid` is ignored. */
  function Receive(t: Table, m: Inbound): (r: (Table, Effect))
    ensures Valid(t) ==> Valid(r.0)
    ensures r.0.nextMid == t.nextMid
    ensures m.Ready? ==> r.0 == t.(ready := true) && r.1 == BecameReady
    ensures m.Message? ==> r.0.ready == t.ready && r.0.msgs - {m.reply.mid} == t.msgs - {m.reply.mid}
    ensures m.Message? && m.reply.mid !in t.msgs ==> r == (t, Ignored)
    ensures m.Message? && m.reply.payload.ProgressField? ==> r.0 == t && !Settles(r.1)
    ensures m.Message? && m.reply.payload.ProgressField? && m.reply.mid in t.msgs ==>
      (r.1.Progressed? <==> t.msgs[m.reply.mid].hasProgress)
    ensures m.Message? && m.reply.payload.ProgressField? && !(m.reply.mid in t.msgs && t.msgs[m.reply.mid].hasProgress) ==>
      r.1 == Ignored
    ensures r.1.Progressed? ==> m.Message? && m.reply.payload.ProgressField? && r.1 == Progressed(m.reply.mid, m.reply.payload.loaded, m.reply.payload.total)
    ensures Settles(r.1) ==> m.Message? && r.1.mid == m.reply.mid && r.1.mid in t.msgs && r.1.mid !in r.0.msgs
    ensures m.Message? && m.reply.mid in t.msgs && !m.reply.payload.ProgressField? ==> Settles(r.1)
    ensures r.1.Rejected? <==>
      m.Message? && m.reply.mid in t.msgs && m.reply.payload.ErrorField? && Truthy(m.reply.payload.error)
    ensures r.1.Rejected? ==> r.1.message == m.reply.payload.error.value
    ensures r.1.Resolved? ==> r.1.reply == m.reply
  {
    match m
    case Ready => (t.(ready := true), BecameReady)
    case Message(reply) =>
      if reply.mid !in t.msgs then (t, Ignored)
      else
        var pending := t.msgs[reply.mid];
        if reply.payload.ProgressField? then
          if pending.hasProgress then (t, Progressed(reply.mid, reply.payload.loaded, reply.payload.total))
          else (t, Ignored)
        else
          var effect := if reply.payload.ErrorField? && Truthy(reply.payload.error)
            then Rejected(reply.mid, reply.payload.error.value)
            else Resolved(reply.mid, reply);
          (t.(msgs := t.msgs - {reply.mid}), effect)
  }

  /** Something that happens on the page: a caller issues a request, or a
      message from the worker arrives. */
  datatype Event = Call(request: Request, hasProgress: bool) | Deliver(m: Inbound)

  function Apply(t: Table, e: Event): (r: (Table, Effect))
    requires Valid(t)
    ensures Valid(r.0)
  {
    match e
    case Call(request, hasProgress) =>
      var p := Post(t, request, hasProgress);
      (p.0, Sent(p.1.mid))
    case Deliver(m) => Receive(t, m)
  }

  /** The effects of a sequence of events, one per event. */
  function Run(t: Table, es: seq<Event>): (effects: seq<Effect>)
    requires Valid(t)
    ensures |effects| == |es|
    decreases |es|
  {
    if es == [] then []
    else
      var r := Apply(t, es[0]);
      [r.1] + Run(r.0, es[1..])
  }

  /** A correlation id that is no longer pending is never settled again. */
  lemma {:induction false} NoSettleAfterRemoval(t: Table, es: seq<Event>, mid: Mid)
    requires Valid(t) && mid !in t.msgs && mid < t.nextMid
    ensures forall i :: 0 <= i < |es| && Settles(Run(t, es)[i]) ==> Run(t, es)[i].mid != mid
    decreases |es|
  {
    if es != [] {
      var r := Apply(t, es[0]);
      assert mid !in r.0.msgs && mid < r.0.nextMid;
      NoSettleAfterRemoval(r.0, es[1..], mid);
      assert Run(t, es) == [r.1] + Run(r.0, es[1..]);
    }
  }

  /** Settle-once: along any sequence of calls and deliveries, no correlation
      id is resolved or rejected twice. */
  lemma {:induction false} SettledAtMostOnce(t: Table, es: seq<Event>)
    requires Valid(t)
    ensures forall i, j :: 0 <= i < j < |es| && Settles(Run(t, es)[i]) && Settles(Run(t, es)[j]) ==>
      Run(t, es)[i].mid != Run(t, es)[j].mid
    decreases |es|
  {
    if es != [] {
      var r := Apply(t, es[0]);
      var tail := Run(r.0, es[1..]);
      assert Run(t, es) == [r.1] + tail;
      SettledAtMostOnce(r.0, es[1..]);
      if Settles(r.1) {
        NoSettleAfterRemoval(r.0, es[1..], r.1.mid);
      }
    }
  }

  /** Every settlement answers a call: its `mid` was pending at the start or
      was handed out by an earlier call in the sequence. */
  lemma {:induction false} SettledWasCalled(t: Table, es: seq<Event>)
    requires Valid(t)
    ensures forall i :: 0 <= i < |es| && Settles(Run(t, es)[i]) ==>
      Run(t, es)[i].mid in t.msgs || exists j :: 0 <= j < i && Run(t, es)[j] == Sent(Run(t, es)[i].mid)
    decreases |es|
  {
    if es != [] {
      var r := Apply(t, es[0]);
      var tail := Run(r.0, es[1..]);
      var all := Run(t, es);
      assert all == [r.1] + tail;
      SettledWasCalled(r.0, es[1..]);
      forall i | 0 < i < |es| && Settles(all[i])
        ensures all[i].mid in t.msgs || exists j :: 0 <= j < i && all[j] == Sent(all[i].mid)
      {
        assert all[i] == tail[i - 1];
        if all[i].mid !in r.0.msgs {
          var j :| 0 <= j < i - 1 && tail[j] == Sent(all[i].mid);
          assert all[j + 1] == tail[j];
        } else if all[i].mid !in t.msgs {
          assert es[0].Call? && all[0] == Sent(all[i].mid);
        }
      }
    }
  }

  /** Progress does not settle: a later terminal message for the same `mid`
      still resolves or rejects the call. */
  lemma ProgressThenTerminal(t: Table, progress: Reply, terminal: Reply)
    requires progress.mid in t.msgs && progress.payload.ProgressField?
    requires terminal.mid == progress.mid && !terminal.payload.ProgressField?
    ensures var t1 := Receive(t, Message(progress)).0;
      t1.msgs == t.msgs && Settles(Receive(t1, Message(terminal)).1)
  {
  }
}
