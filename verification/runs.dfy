/** Arbitrary interleavings of the `redqueue` package queue's operations and
    what a restart recovers from the journal they leave behind. */
module Runs {
  import opened Common
  import opened Journal
  import opened Queues
  import opened Recovery

  /** One call a client session can make on a queue. `now` is the clock
      reading `reserve` and `take` compare expiry times against. */
  datatype Op =
    | GiveOp(timeout: int, data: string)
    | ReserveOp(id: string, now: int)
    | UseOp(id: string)
    | GiveBackOp(id: string)
    | TakeOp(id: string, now: int)

  /** The call completes without raising: `give_back` needs a lent entry
      (`KeyError` otherwise) and `reserve` must not lend to an id that
      already holds one (its `assert`). */
  predicate Allowed(q: Queue, op: Op) {
    match op
    case GiveOp(_, _) => true
    case ReserveOp(id, now) => id in q.lent ==> AllExpired(q.ready, now)
    case UseOp(_) => true
    case GiveBackOp(id) => id in q.lent
    case TakeOp(id, now) => id in q.lent ==> AllExpired(q.ready, now)
  }

  function Step(q: Queue, op: Op): (r: Queue)
    requires Allowed(q, op)
    ensures r.key == q.key
  {
    match op
    case GiveOp(t, d) => Give(q, t, d)
    case ReserveOp(id, now) => Reserve(q, id, now).queue
    case UseOp(id) => Use(q, id)
    case GiveBackOp(id) => GiveBack(q, id)
    case TakeOp(id, now) => Take(q, id, now).queue
  }

  /** The calls in order; `None` when one of them would raise. */
  function RunOps(q: Queue, ops: seq<Op>): (r: Option<Queue>)
    ensures r.Some? ==> r.value.key == q.key
    ensures ops != [] ==> (r.Some? <==> Allowed(q, ops[0]) && RunOps(Step(q, ops[0]), ops[1..]).Some?)
    ensures ops == [] ==> r == Some(q)
    decreases |ops|
  {
    if ops == [] then Some(q)
    else if Allowed(q, ops[0]) then RunOps(Step(q, ops[0]), ops[1..])
    else None
  }

  /** Calls whose ids survive the journal's line format and whose entries
      never expire. */
  predicate Tame(op: Op) {
    match op
    case GiveOp(t, _) => t <= 0
    case ReserveOp(id, _) => ValidId(id)
    case UseOp(id) => ValidId(id)
    case GiveBackOp(id) => ValidId(id)
    case TakeOp(id, _) => ValidId(id)
  }

  /** Nothing queued or lent can expire. */
  predicate NoExpiry(q: Queue) {
    NeverExpiring(q.ready) && forall v :: v in q.lent.Values ==> v.timeout <= 0
  }

  lemma ReserveNoExpiry(q: Queue, id: string, now: int)
    requires NoExpiry(q) && (id in q.lent ==> AllExpired(q.ready, now))
    ensures NoExpiry(Reserve(q, id, now).queue) && NoneExpired(q.ready, now)
  {
    var r := Reserve(q, id, now);
    assert NoneExpired(q.ready, now) by {
      forall i | 0 <= i < |q.ready| ensures !Expired(q.ready[i], now) {
        assert q.ready[i].timeout <= 0;
      }
    }
    forall i | 0 <= i < |r.queue.ready| ensures r.queue.ready[i].timeout <= 0 {
      assert r.queue.ready[i] == q.ready[i];
    }
    if r.item.Some? {
      forall v | v in r.queue.lent.Values ensures v.timeout <= 0 {
        var k :| k in r.queue.lent && r.queue.lent[k] == v;
        if k != id {
          assert q.lent[k] in q.lent.Values;
        }
      }
    }
  }

  lemma UseNoExpiry(q: Queue, id: string)
    requires NoExpiry(q)
    ensures NoExpiry(Use(q, id))
  {
    var r := Use(q, id);
    forall v | v in r.lent.Values ensures v.timeout <= 0 {
      var k :| k in r.lent && r.lent[k] == v;
      assert q.lent[k] in q.lent.Values;
    }
  }

  lemma GiveBackNoExpiry(q: Queue, id: string)
    requires NoExpiry(q) && id in q.lent
    ensures NoExpiry(GiveBack(q, id))
  {
    var r := GiveBack(q, id);
    assert q.lent[id] in q.lent.Values;
    forall i | 0 <= i < |r.ready| ensures r.ready[i].timeout <= 0 {
      if i > 0 { assert r.ready[i] == q.ready[i - 1]; }
    }
    forall v | v in r.lent.Values ensures v.timeout <= 0 {
      var k :| k in r.lent && r.lent[k] == v;
      assert q.lent[k] in q.lent.Values;
    }
  }

  /** One tame call keeps the journal in step with the live queue. */
  lemma StepConsistent(q: Queue, op: Op)
    requires Consistent(q) && NoExpiry(q) && Tame(op) && Allowed(q, op)
    ensures Consistent(Step(q, op)) && NoExpiry(Step(q, op))
  {
    match op
    case GiveOp(t, d) =>
      GiveConsistent(q, t, d);
      var r := Give(q, t, d);
      forall i | 0 <= i < |r.ready| ensures r.ready[i].timeout <= 0 {
        if i > 0 { assert r.ready[i] == q.ready[i - 1]; }
      }
    case ReserveOp(id, now) =>
      ReserveNoExpiry(q, id, now);
      LiveReserve(q, id, now);
      ReserveConsistent(q, id, now);
    case UseOp(id) =>
      UseConsistent(q, id);
      UseNoExpiry(q, id);
    case GiveBackOp(id) =>
      GiveBackConsistent(q, id);
      GiveBackNoExpiry(q, id);
    case TakeOp(id, now) =>
      ReserveNoExpiry(q, id, now);
      LiveReserve(q, id, now);
      TakeConsistent(q, id, now);
      var r := Reserve(q, id, now);
      if r.item.Some? {
        UseNoExpiry(r.queue, id);
      }
  }

  lemma {:induction false} RunConsistent(q: Queue, ops: seq<Op>)
    requires Consistent(q) && NoExpiry(q)
    requires forall i :: 0 <= i < |ops| ==> Tame(ops[i])
    ensures RunOps(q, ops).Some? ==> Consistent(RunOps(q, ops).value) && NoExpiry(RunOps(q, ops).value)
    decreases |ops|
  {
    if ops != [] && Allowed(q, ops[0]) {
      StepConsistent(q, ops[0]);
      assert forall i :: 0 <= i < |ops[1..]| ==> ops[1..][i] == ops[i + 1];
      RunConsistent(Step(q, ops[0]), ops[1..]);
    }
  }

  /** Replay after any run: whatever tame calls a fresh queue went through,
      a restart that replays its journal file rebuilds its deque, with the
      entries still lent folded back at the left end, and loses or invents
      no entry. */
  lemma RestoreAfterAnyRun(key: string, ops: seq<Op>)
    requires forall i :: 0 <= i < |ops| ==> Tame(ops[i])
    requires RunOps(NewQueue(key), ops).Some?
    ensures Restore(key, EncodeAll(RunOps(NewQueue(key), ops).value.journal)) ==
      Ok(Queue(key,
        FoldBack(RunOps(NewQueue(key), ops).value.ready, RunOps(NewQueue(key), ops).value.lent,
          Enumerate(RunOps(NewQueue(key), ops).value.lent.Keys)),
        map[], RunOps(NewQueue(key), ops).value.journal, []))
    ensures multiset(Restore(key, EncodeAll(RunOps(NewQueue(key), ops).value.journal)).value.ready) ==
      multiset(RunOps(NewQueue(key), ops).value.ready) +
      multiset(ValuesIn(RunOps(NewQueue(key), ops).value.lent, Enumerate(RunOps(NewQueue(key), ops).value.lent.Keys)))
  {
    NewQueueConsistent(key);
    RunConsistent(NewQueue(key), ops);
    var q := RunOps(NewQueue(key), ops).value;
    RestoreOfLiveJournal(q);
    RestoreConserves(q);
  }
}
