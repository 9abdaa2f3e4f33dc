/** The queue of the older single-file server (`redqueue.py`): the same
    deque and lent table (`borrowing`), a log that also records plain pops
    as `G`, rotation checked inside `dequeue`, and a replay that folds
    leftover borrows onto the dequeue end. */
module Legacy {
  import opened Common
  import opened Journal
  import opened Recovery

  /** Log rotation threshold in bytes: one megabyte. */
  const LOG_CAPACITY: nat := 1024 * 1024

  /** `log` is the current log file as records; `archived` holds the files
      left behind by rotation, oldest first. */
  datatype LQueue = LQueue(
    key: string,
    ready: seq<Item>,
    borrowing: map<string, Item>,
    log: seq<Record>,
    archived: seq<seq<Record>>)

  /** `Queue(key)`: empty, with a fresh log file just opened. */
  function NewLQueue(key: string): (q: LQueue)
    ensures q.key == key && q.ready == [] && q.borrowing == map[] && q.log == []
  {
    LQueue(key, [], map[], [], [])
  }

  function LogSize(q: LQueue): nat {
    |EncodeAll(q.log)|
  }

  /** The check inside `dequeue`: nothing queued, nothing borrowed, and the
      log has reached the capacity. */
  predicate LogRotationDue(q: LQueue) {
    |q.ready| == 0 && |q.borrowing| == 0 && LogSize(q) >= LOG_CAPACITY
  }

  /** `rotate_log` when due: archive the file and open a fresh one. */
  function RotateLog(q: LQueue): (r: LQueue)
    ensures r.key == q.key && r.ready == q.ready && r.borrowing == q.borrowing
    ensures r.log == (if LogRotationDue(q) then [] else q.log)
  {
    if LogRotationDue(q) then q.(log := [], archived := q.archived + [q.log]) else q
  }

  /** `enqueue`: the entry enters at the left end. */
  function Enqueue(q: LQueue, timeout: int, data: string): (r: LQueue)
    ensures r.key == q.key && r.borrowing == q.borrowing && r.archived == q.archived
    ensures |r.ready| == |q.ready| + 1 && r.ready[0] == Item(timeout, data) && r.ready[1..] == q.ready
    ensures r.log == q.log + [Stored(timeout, data)]
  {
    q.(ready := [Item(timeout, data)] + q.ready, log := q.log + [Stored(timeout, data)])
  }

  /** `use`: acknowledge what `id` borrows, if anything; no rotation here. */
  function LUse(q: LQueue, id: string): (r: LQueue)
    ensures r.key == q.key && r.ready == q.ready && r.archived == q.archived
    ensures id !in r.borrowing && r.borrowing == q.borrowing - {id}
    ensures id in q.borrowing ==> r.log == q.log + [Used(id)]
    ensures id !in q.borrowing ==> r == q
  {
    if id in q.borrowing then q.(log := q.log + [Used(id)], borrowing := q.borrowing - {id}) else q
  }

  /** `return_`: the borrowed entry re-enters at the left end (`KeyError`
      when `id` borrows nothing). */
  function Return(q: LQueue, id: string): (r: LQueue)
    requires id in q.borrowing
    ensures r.key == q.key && r.archived == q.archived
    ensures r.ready == [q.borrowing[id]] + q.ready
    ensures r.borrowing == q.borrowing - {id}
    ensures r.log == q.log + [Returned(id)]
  {
    q.(ready := [q.borrowing[id]] + q.ready, borrowing := q.borrowing - {id}, log := q.log + [Returned(id)])
  }

  /** The line `dequeue` logs per pop: `G` without an id, `B id` with one. */
  function PopLine(prot: Option<string>): (r: Record)
    ensures prot.None? <==> r.Got?
  {
    match prot
    case None => Got
    case Some(id) => Borrowed(id)
  }

  /** `n` copies of a pop line. */
  function PopLines(prot: Option<string>, n: nat): (rs: seq<Record>)
    ensures |rs| == n && forall i :: 0 <= i < n ==> rs[i] == PopLine(prot)
  {
    if n == 0 then [] else PopLines(prot, n - 1) + [PopLine(prot)]
  }

  datatype Popped = Popped(queue: LQueue, item: Option<Item>)

  /** `dequeue(prot_id)`: the loop pops from the right end and logs every
      pop until it pops a live entry or finds the deque empty; `Skip` says
      where it stops. Rotation is checked after each pop, but it can only be
      due after the pop that empties the deque, so it is applied once, after
      the last pop. The live entry is lent only when `prot_id` is a
      non-empty id, which must not borrow anything yet (`assert`). */
  function Dequeue(q: LQueue, prot: Option<string>, now: int): (r: Popped)
    requires Truthy(prot) && prot.value in q.borrowing ==> AllExpired(q.ready, now)
    ensures r.queue.key == q.key
    ensures |r.queue.ready| <= |q.ready| && r.queue.ready == q.ready[..|r.queue.ready|]
    ensures r.item.None? ==> r.queue.ready == [] && r.queue.borrowing == q.borrowing && AllExpired(q.ready, now)
    ensures r.item.Some? ==>
      var k := |r.queue.ready|;
      k < |q.ready| && q.ready[k] == r.item.value && !Expired(r.item.value, now) &&
      (forall i :: k < i < |q.ready| ==> Expired(q.ready[i], now)) &&
      r.queue.borrowing == (if Truthy(prot) then q.borrowing[prot.value := r.item.value] else q.borrowing) &&
      (Truthy(prot) ==> prot.value !in q.borrowing)
  {
    if q.ready == [] then Popped(q, None)
    else
      var k := Skip(q.ready, now);
      var rest := if k == 0 then [] else q.ready[..k - 1];
      var popped := RotateLog(q.(ready := rest, log := q.log + PopLines(prot, |q.ready| - |rest|)));
      assert popped.key == q.key && popped.ready == rest && popped.borrowing == q.borrowing;
      if k == 0 then Popped(popped, None)
      else
        var it := q.ready[k - 1];
        Popped(if Truthy(prot) then popped.(borrowing := q.borrowing[prot.value := it]) else popped, Some(it))
  }

  /** `dequeue` logs one line per pop, `G` without an id and `B id` with
      one, unless the pop that emptied the deque rotated the log, which
      leaves it empty. */
  lemma DequeueLog(q: LQueue, prot: Option<string>, now: int)
    requires Truthy(prot) && prot.value in q.borrowing ==> AllExpired(q.ready, now)
    ensures var r := Dequeue(q, prot, now).queue;
      r.log == q.log + PopLines(prot, |q.ready| - |r.ready|) ||
      (r.log == [] && r.ready == [] && q.borrowing == map[])
  {
    if q.ready == [] {
      assert q.log + PopLines(prot, 0) == q.log;
    }
  }

  // ---------------------------------------------------------------------
  // Replay

  /** One record applied by `load_from_log`: as in the package's loader,
      except that `G` pops an entry (and is skipped on an empty deque). */
  function LApply(st: Image, r: Record): (res: Result<Image, LoadError>)
    ensures r.Got? ==>
      res.Ok? && res.value.lent == st.lent && res.value.ready == (if st.ready == [] then [] else st.ready[..|st.ready| - 1])
    ensures !r.Got? ==> res == Apply(st, r)
  {
    if r.Got? then
      Ok(if st.ready == [] then st else Image(st.ready[..|st.ready| - 1], st.lent))
    else Apply(st, r)
  }

  function LReplay(init: Image, rs: seq<Record>): Result<Image, LoadError>
    decreases |rs|
  {
    if rs == [] then Ok(init)
    else
      match LReplay(init, rs[..|rs| - 1])
      case Err(e) => Err(e)
      case Ok(st) => LApply(st, rs[|rs| - 1])
  }

  lemma LReplaySnoc(init: Image, rs: seq<Record>, r: Record)
    ensures LReplay(init, rs + [r]) ==
      match LReplay(init, rs) case Err(e) => Err(e) case Ok(st) => LApply(st, r)
  {
    assert (rs + [r])[..|rs|] == rs;
  }

  /** The older loader's fold-back, visiting the ids in `order`: each entry
      still borrowed is appended at the dequeue end, the one visited last
      rightmost, so it is the next one handed out. */
  function FoldOnto(ready: seq<Item>, lent: map<string, Item>, order: seq<string>): (r: seq<Item>)
    requires forall i :: 0 <= i < |order| ==> order[i] in lent
    ensures r == ready + ValuesIn(lent, order)
    decreases |order|
  {
    if order == [] then ready
    else
      var x := lent[order[0]];
      var r := FoldOnto(ready + [x], lent, order[1..]);
      AppendOne(ready, x, ValuesIn(lent, order[1..]));
      r
  }

  lemma AppendOne(s: seq<Item>, x: Item, t: seq<Item>)
    ensures (s + [x]) + t == s + ([x] + t)
  {
  }

  /** `load_from_log`: replay onto the queue's deque and its `borrowing`,
      fold leftovers onto the dequeue end and clear `borrowing`. */
  ghost function LoadFromLog(q: LQueue, text: string): (r: Result<LQueue, LoadError>)
    ensures r.Ok? ==> r.value.key == q.key && r.value.borrowing == map[] && r.value.log == q.log
    ensures r.Ok? <==> Parse(text).error == None && LReplay(Image(q.ready, q.borrowing), Parse(text).records).Ok?
  {
    var p := Parse(text);
    match LReplay(Image(q.ready, q.borrowing), p.records)
    case Err(e) => Err(e)
    case Ok(st) =>
      if p.error.Some? then Err(Unreadable(p.error.value))
      else Ok(q.(ready := FoldOnto(st.ready, st.lent, Enumerate(st.lent.Keys)), borrowing := map[]))
  }

  /** The live queue is what its current log replays to. */
  ghost predicate LConsistent(q: LQueue) {
    LReplay(Empty, q.log) == Ok(Image(q.ready, q.borrowing)) && AllWellFormed(q.log)
  }

  lemma NewLQueueConsistent(key: string)
    ensures LConsistent(NewLQueue(key))
  {
  }

  lemma EnqueueConsistent(q: LQueue, timeout: int, data: string)
    requires LConsistent(q)
    ensures LConsistent(Enqueue(q, timeout, data))
  {
    LReplaySnoc(Empty, q.log, Stored(timeout, data));
    WellFormedSnoc(q.log, Stored(timeout, data));
  }

  lemma LUseConsistent(q: LQueue, id: string)
    requires LConsistent(q) && ValidId(id)
    ensures LConsistent(LUse(q, id))
  {
    if id in q.borrowing {
      LReplaySnoc(Empty, q.log, Used(id));
      WellFormedSnoc(q.log, Used(id));
    }
  }

  lemma ReturnConsistent(q: LQueue, id: string)
    requires LConsistent(q) && ValidId(id) && id in q.borrowing
    ensures LConsistent(Return(q, id))
  {
    LReplaySnoc(Empty, q.log, Returned(id));
    WellFormedSnoc(q.log, Returned(id));
  }

  /** Replaying `m` more `G` lines pops `m` entries off the right end. */
  lemma {:induction false} ReplayPops(log: seq<Record>, st: Image, m: nat)
    requires LReplay(Empty, log) == Ok(st) && m <= |st.ready|
    ensures LReplay(Empty, log + PopLines(None, m)) == Ok(Image(st.ready[..|st.ready| - m], st.lent))
  {
    LReplayAppend(Empty, log, PopLines(None, m));
    ReplayGots(st, m);
  }

  /** Replaying `m` `G` lines pops `m` entries off the right end. */
  lemma {:induction false} ReplayGots(st: Image, m: nat)
    requires m <= |st.ready|
    ensures LReplay(st, PopLines(None, m)) == Ok(Image(st.ready[..|st.ready| - m], st.lent))
    decreases m
  {
    if m == 0 {
      assert st.ready[..|st.ready|] == st.ready;
    } else {
      var rs := PopLines(None, m);
      assert rs[..m - 1] == PopLines(None, m - 1) && rs[m - 1] == Got;
      ReplayGots(st, m - 1);
      GotStep(st, Image(st.ready[..|st.ready| - m + 1], st.lent), |st.ready| - m);
    }
  }

  lemma GotStep(st: Image, mid: Image, k: nat)
    requires k < |st.ready| && mid == Image(st.ready[..k + 1], st.lent)
    ensures LApply(mid, Got) == Ok(Image(st.ready[..k], st.lent))
  {
    assert mid.ready[..k] == st.ready[..k];
  }

  lemma {:induction false} LReplayAppend(init: Image, a: seq<Record>, b: seq<Record>)
    ensures LReplay(init, a + b) ==
      match LReplay(init, a) case Err(e) => Err(e) case Ok(st) => LReplay(st, b)
    decreases |b|
  {
    if b == [] {
      assert a + b == a;
    } else {
      var b' := b[..|b| - 1];
      LReplayAppend(init, a, b');
      assert (a + b)[..|a + b| - 1] == a + b';
      assert (a + b)[|a + b| - 1] == b[|b| - 1];
    }
  }

  lemma GotsWellFormed(log: seq<Record>, m: nat)
    requires AllWellFormed(log)
    ensures AllWellFormed(log + PopLines(None, m))
  {
    var all := log + PopLines(None, m);
    forall i | 0 <= i < |all| ensures WellFormed(all[i]) {
      if i >= |log| { assert all[i] == PopLines(None, m)[i - |log|]; }
    }
  }

  /** Plain-mode `dequeue` keeps the log in step whatever expires: every
      pop, live or expired, is a `G` line that replays as the same pop, and
      a rotation only happens on an empty queue with nothing borrowed. */
  lemma PlainDequeueConsistent(q: LQueue, now: int)
    requires LConsistent(q)
    ensures LConsistent(Dequeue(q, None, now).queue)
  {
    var r := Dequeue(q, None, now).queue;
    DequeueLog(q, None, now);
    if r.log != [] || r.ready != [] || q.borrowing != map[] {
      var m := |q.ready| - |r.ready|;
      assert r.log == q.log + PopLines(None, m);
      ReplayPops(q.log, Image(q.ready, q.borrowing), m);
      GotsWellFormed(q.log, m);
    }
  }

  /** Would a lending `dequeue` rotate the log before it records the loan?
      Only when its pops empty the deque (the first live entry is the
      leftmost one), nothing is borrowed, and the log with its `B` lines has
      reached the capacity. */
  predicate LendRotates(q: LQueue, id: string, now: int) {
    Skip(q.ready, now) == 1 && q.borrowing == map[] &&
    |EncodeAll(q.log + PopLines(Some(id), |q.ready|))| >= LOG_CAPACITY
  }

  /** A lending `dequeue` keeps the log in step whenever it lends and does
      not rotate: its `B id` lines pop the same entries in the replay, expired
      ones included, and the last one lends the entry handed out, overwriting
      the slot the expired pops filled. An empty deque logs nothing. */
  lemma LendDequeueConsistent(q: LQueue, id: string, now: int)
    requires LConsistent(q) && ValidId(id) && id !in q.borrowing
    requires Dequeue(q, Some(id), now).item.Some? || q.ready == []
    requires !LendRotates(q, id, now)
    ensures LConsistent(Dequeue(q, Some(id), now).queue)
  {
    if q.ready != [] {
      DequeueLends(q, id, now);
      LendStep(q, Dequeue(q, Some(id), now).queue, id, |Dequeue(q, Some(id), now).queue.ready|);
    }
  }

  /** What a lending `dequeue` that hands out an entry does when it does not
      rotate: the popped entries leave the right end, the last of them is
      lent to `id`, and one `B id` line is logged per pop. */
  lemma DequeueLends(q: LQueue, id: string, now: int)
    requires ValidId(id) && id !in q.borrowing
    requires Dequeue(q, Some(id), now).item.Some? && !LendRotates(q, id, now)
    ensures var r := Dequeue(q, Some(id), now).queue;
      var k := |r.ready|;
      k < |q.ready| && r.ready == q.ready[..k] && r.borrowing == q.borrowing[id := q.ready[k]] &&
      r.log == q.log + PopLines(Some(id), |q.ready| - k)
  {
    var d := Dequeue(q, Some(id), now);
    var k := Skip(q.ready, now);
    assert q.ready != [] && k > 0;
    var rest := q.ready[..k - 1];
    var pre := q.(ready := rest, log := q.log + PopLines(Some(id), |q.ready| - |rest|));
    assert !LogRotationDue(pre);
    assert d.queue == pre.(borrowing := q.borrowing[id := q.ready[k - 1]]);
  }

  /** Logging `B id` once per pop down to position `k`, with the entry at
      `k` lent to `id`, keeps the log in step. */
  lemma LendStep(q: LQueue, r: LQueue, id: string, k: nat)
    requires LConsistent(q) && ValidId(id) && k < |q.ready|
    requires r.ready == q.ready[..k] && r.borrowing == q.borrowing[id := q.ready[k]]
    requires r.log == q.log + PopLines(Some(id), |q.ready| - k)
    ensures LConsistent(r)
  {
    var m := |q.ready| - k;
    LReplayAppend(Empty, q.log, PopLines(Some(id), m));
    LReplayBorrows(Image(q.ready, q.borrowing), id, m);
    AppendWellFormed(q.log, PopLines(Some(id), m));
  }

  /** Replaying `m` lines `B id` pops `m` entries off the right end; the
      table ends with `id` lent the last of them. */
  lemma {:induction false} LReplayBorrows(st: Image, id: string, m: nat)
    requires 1 <= m <= |st.ready|
    ensures LReplay(st, PopLines(Some(id), m)) ==
      Ok(Image(st.ready[..|st.ready| - m], st.lent[id := st.ready[|st.ready| - m]]))
    decreases m
  {
    var rs := PopLines(Some(id), m);
    var n := |st.ready|;
    assert rs[..m - 1] == PopLines(Some(id), m - 1) && rs[m - 1] == Borrowed(id);
    var prev := if m == 1 then st else Image(st.ready[..n - m + 1], st.lent[id := st.ready[n - m + 1]]);
    if m == 1 {
      assert LReplay(st, rs[..m - 1]) == Ok(prev);
    } else {
      LReplayBorrows(st, id, m - 1);
    }
    BorrowStep(st, prev, id, n - m);
  }

  /** Rotation can drop a borrow: when the pops of a lending `dequeue`
      empty the deque and the log is full, `dequeue` rotates before it
      records the loan, so the fresh log is empty while the queue lends the
      entry, and a restart from that log would not know the entry at all. */
  lemma RotationDropsBorrow(q: LQueue, id: string, now: int)
    requires LConsistent(q) && ValidId(id) && LendRotates(q, id, now)
    ensures Dequeue(q, Some(id), now).item == Some(q.ready[0])
    ensures Dequeue(q, Some(id), now).queue.log == []
    ensures Dequeue(q, Some(id), now).queue.borrowing == map[id := q.ready[0]]
    ensures !LConsistent(Dequeue(q, Some(id), now).queue)
  {
    var pre := q.(ready := [], log := q.log + PopLines(Some(id), |q.ready|));
    assert q.ready[..0] == [] && LogRotationDue(pre);
    var r := Dequeue(q, Some(id), now).queue;
    assert r.log == [] && r.borrowing == map[id := q.ready[0]];
    assert LReplay(Empty, r.log) == Ok(Empty);
  }

  // ---------------------------------------------------------------------
  // Restart

  /** Replay equivalence: loading the log of a consistent queue into a
      fresh queue gives its deque with the borrowed entries appended at the
      dequeue end. */
  lemma LRestoreOfLiveLog(q: LQueue)
    requires LConsistent(q)
    ensures LoadFromLog(NewLQueue(q.key), EncodeAll(q.log)) ==
      Ok(LQueue(q.key, q.ready + ValuesIn(q.borrowing, Enumerate(q.borrowing.Keys)), map[], [], []))
  {
    ParseEncodeAll(q.log);
  }

  /** With nothing borrowed, loading the log reproduces the deque exactly. */
  lemma LRestoreNothingBorrowed(q: LQueue)
    requires LConsistent(q) && q.borrowing == map[]
    ensures LoadFromLog(NewLQueue(q.key), EncodeAll(q.log)).Ok?
    ensures LoadFromLog(NewLQueue(q.key), EncodeAll(q.log)).value.ready == q.ready
  {
    LRestoreOfLiveLog(q);
    assert q.borrowing.Keys == {};
    assert Enumerate(q.borrowing.Keys) == [];
  }

  /** Plain-mode calls: `enqueue` and `dequeue()` without an id. */
  datatype PlainOp = EnqueueOp(timeout: int, data: string) | DequeueOp(now: int)

  function RunPlain(q: LQueue, ops: seq<PlainOp>): (r: LQueue)
    ensures r.key == q.key
    decreases |ops|
  {
    if ops == [] then q
    else
      var next := match ops[0]
        case EnqueueOp(t, d) => Enqueue(q, t, d)
        case DequeueOp(now) => Dequeue(q, None, now).queue;
      RunPlain(next, ops[1..])
  }

  /** Plain mode replays exactly, expired entries included: after any
      sequence of `enqueue` and `dequeue()` calls on a fresh queue, loading
      its current log rebuilds its deque. */
  lemma {:induction false} PlainRunReplays(q: LQueue, ops: seq<PlainOp>)
    requires LConsistent(q) && q.borrowing == map[]
    ensures LConsistent(RunPlain(q, ops)) && RunPlain(q, ops).borrowing == map[]
    ensures LoadFromLog(NewLQueue(q.key), EncodeAll(RunPlain(q, ops).log)).Ok?
    ensures LoadFromLog(NewLQueue(q.key), EncodeAll(RunPlain(q, ops).log)).value.ready == RunPlain(q, ops).ready
    decreases |ops|
  {
    if ops == [] {
      LRestoreNothingBorrowed(q);
    } else {
      match ops[0]
      case EnqueueOp(t, d) =>
        EnqueueConsistent(q, t, d);
        PlainRunReplays(Enqueue(q, t, d), ops[1..]);
      case DequeueOp(now) =>
        PlainDequeueConsistent(q, now);
        PlainRunReplays(Dequeue(q, None, now).queue, ops[1..]);
    }
  }

  /** Start-up restore of one key as `scan_logs` does it: `Queue(key)`
      opens a fresh log, then `load_from_log` replays the newest old one.
      Nothing of the replayed state is written to the fresh log. */
  ghost function RestoreLatest(key: string, text: string): (r: Result<LQueue, LoadError>)
    ensures r.Ok? ==> r.value.key == key && r.value.log == [] && r.value.borrowing == map[]
  {
    LoadFromLog(NewLQueue(key), text)
  }

  /** The fresh log is the newest file of its key, so the next start-up
      restores from it; here the old log holds one entry `a`, the restored
      queue holds it, and the restore after it finds nothing. */
  lemma SecondRestartLoses()
    ensures RestoreLatest("k", EncodeAll([Stored(0, "a")])).Ok?
    ensures RestoreLatest("k", EncodeAll([Stored(0, "a")])).value.ready == [Item(0, "a")]
    ensures !LConsistent(RestoreLatest("k", EncodeAll([Stored(0, "a")])).value)
    ensures RestoreLatest("k", EncodeAll(RestoreLatest("k", EncodeAll([Stored(0, "a")])).value.log)) ==
      Ok(NewLQueue("k"))
  {
    var j := [Stored(0, "a")];
    assert AllWellFormed(j);
    ParseEncodeAll(j);
    LReplaySnoc(Empty, [], Stored(0, "a"));
    assert [] + [Stored(0, "a")] == j;
    var none: map<string, Item> := map[];
    assert none.Keys == {};
    assert Enumerate(none.Keys) == [];
    assert EncodeAll([]) == "";
  }

  /** Log lines that rebuild a deque from nothing: its entries from the
      dequeue end to the enqueue end, each as an `S` line. */
  function Snapshot(ready: seq<Item>): (rs: seq<Record>)
    ensures |rs| == |ready| && AllWellFormed(rs)
    decreases |ready|
  {
    if ready == [] then [] else Snapshot(ready[1..]) + [Stored(ready[0].timeout, ready[0].data)]
  }

  lemma {:induction false} SnapshotReplays(ready: seq<Item>)
    ensures LReplay(Empty, Snapshot(ready)) == Ok(Image(ready, map[]))
    decreases |ready|
  {
    if ready != [] {
      SnapshotReplays(ready[1..]);
      LReplaySnoc(Empty, Snapshot(ready[1..]), Stored(ready[0].timeout, ready[0].data));
      assert [ready[0]] + ready[1..] == ready;
    }
  }

  /** Corrected start-up restore: after the replay, the restored deque is
      written to the fresh log, so the newest file of the key describes the
      queue. */
  ghost function RestoreLatestLogged(key: string, text: string): (r: Result<LQueue, LoadError>)
    ensures r.Ok? <==> RestoreLatest(key, text).Ok?
    ensures r.Ok? ==> r.value.key == key && r.value.ready == RestoreLatest(key, text).value.ready && r.value.borrowing == map[]
  {
    match RestoreLatest(key, text)
    case Err(e) => Err(e)
    case Ok(q) => Ok(q.(log := Snapshot(q.ready)))
  }

  /** The corrected restore survives any number of further restarts: its
      log replays to it, so loading that log rebuilds the same deque. */
  lemma RestoreLatestLoggedSurvives(key: string, text: string)
    requires RestoreLatestLogged(key, text).Ok?
    ensures LConsistent(RestoreLatestLogged(key, text).value)
    ensures RestoreLatest(key, EncodeAll(RestoreLatestLogged(key, text).value.log)).Ok?
    ensures RestoreLatest(key, EncodeAll(RestoreLatestLogged(key, text).value.log)).value.ready ==
      RestoreLatestLogged(key, text).value.ready
  {
    var q := RestoreLatestLogged(key, text).value;
    SnapshotReplays(q.ready);
    LRestoreNothingBorrowed(q);
  }

  // ---------------------------------------------------------------------
  // FIFO

  /** `enqueue` each entry in turn, first entry first. */
  function EnqueueAll(q: LQueue, items: seq<Item>): (r: LQueue)
    ensures r.key == q.key && r.borrowing == q.borrowing
    ensures |r.ready| == |items| + |q.ready| && r.ready[|items|..] == q.ready
    ensures forall i :: 0 <= i < |items| ==> r.ready[i] == items[|items| - 1 - i]
    decreases |items|
  {
    if items == [] then q
    else
      var it := items[|items| - 1];
      Enqueue(EnqueueAll(q, items[..|items| - 1]), it.timeout, it.data)
  }

  datatype Dequeued = Dequeued(queue: LQueue, items: seq<Option<Item>>)

  /** `n` successive plain `dequeue()` calls and what each returned. */
  function DequeueN(q: LQueue, now: int, n: nat): (r: Dequeued)
    ensures |r.items| == n && r.queue.key == q.key
    decreases n
  {
    if n == 0 then Dequeued(q, [])
    else
      var t := Dequeue(q, None, now);
      var rest := DequeueN(t.queue, now, n - 1);
      Dequeued(rest.queue, [t.item] + rest.items)
  }

  /** Draining: with no entry expired, plain `dequeue()` calls hand out
      the entries from the right end inward, one per call. */
  lemma {:induction false} DequeueNDrains(q: LQueue, now: int)
    requires NoneExpired(q.ready, now)
    ensures DequeueN(q, now, |q.ready|).items == Pops(q.ready)
    decreases |q.ready|
  {
    var n := |q.ready|;
    if n > 0 {
      DequeueLive(q, now);
      var t := Dequeue(q, None, now).queue;
      assert |t.ready| == n - 1;
      DequeueNDrains(t, now);
      DequeueNStep(q, now, n);
    }
  }

  /** Draining empties the deque. */
  lemma {:induction false} DequeueNEmpties(q: LQueue, now: int)
    requires NoneExpired(q.ready, now)
    ensures DequeueN(q, now, |q.ready|).queue.ready == []
    decreases |q.ready|
  {
    var n := |q.ready|;
    if n > 0 {
      DequeueLive(q, now);
      var t := Dequeue(q, None, now).queue;
      assert |t.ready| == n - 1;
      DequeueNEmpties(t, now);
      DequeueNStep(q, now, n);
    }
  }

  /** One plain `dequeue()` with a live entry at the right end hands out
      that entry and leaves only live entries behind. */
  lemma DequeueLive(q: LQueue, now: int)
    requires NoneExpired(q.ready, now) && q.ready != []
    ensures Dequeue(q, None, now).item == Some(q.ready[|q.ready| - 1])
    ensures Dequeue(q, None, now).queue.ready == q.ready[..|q.ready| - 1]
    ensures NoneExpired(Dequeue(q, None, now).queue.ready, now)
  {
    assert !Expired(q.ready[|q.ready| - 1], now);
  }

  /** One `dequeue()`, then the remaining ones. */
  lemma DequeueNStep(q: LQueue, now: int, n: nat)
    requires n > 0
    ensures DequeueN(q, now, n).items == [Dequeue(q, None, now).item] + DequeueN(Dequeue(q, None, now).queue, now, n - 1).items
    ensures DequeueN(q, now, n).queue == DequeueN(Dequeue(q, None, now).queue, now, n - 1).queue
  {
  }

  /** FIFO for the older server: entries enqueued on an empty queue, none
      of them expired, come out of plain `dequeue()` calls in the order
      they were enqueued. */
  lemma LegacyFifo(q: LQueue, items: seq<Item>, now: int)
    requires q.ready == [] && NoneExpired(items, now)
    ensures forall i :: 0 <= i < |items| ==> DequeueN(EnqueueAll(q, items), now, |items|).items[i] == Some(items[i])
    ensures DequeueN(EnqueueAll(q, items), now, |items|).queue.ready == []
  {
    var g := EnqueueAll(q, items);
    EnqueueAllLive(q, items, now);
    DequeueNDrains(g, now);
    DequeueNEmpties(g, now);
    PopsReversed(g.ready, items);
  }

  /** Enqueueing live entries on an empty queue leaves only live entries. */
  lemma EnqueueAllLive(q: LQueue, items: seq<Item>, now: int)
    requires q.ready == [] && NoneExpired(items, now)
    ensures NoneExpired(EnqueueAll(q, items).ready, now) && |EnqueueAll(q, items).ready| == |items|
  {
    var g := EnqueueAll(q, items);
    forall i | 0 <= i < |g.ready| ensures !Expired(g.ready[i], now) {
      assert g.ready[i] == items[|items| - 1 - i];
    }
  }
}
