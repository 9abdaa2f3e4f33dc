/** Recovery of one `redqueue` package queue: replaying its journal
    file, folding back entries that were still lent when the file ends, and
    how the replay relates to the live queue that wrote the file. */
module Recovery {
  import opened Common
  import opened Journal
  import opened Queues

  /** The state the loader rebuilds: the deque and a scratch lent table. */
  datatype Image = Image(ready: seq<Item>, lent: map<string, Item>)

  datatype LoadError =
    | Unlent(id: string)           // `assert prot_id in lent` failed on a `U` or `R` line
    | Unreadable(error: ParseError) // a line the reader could not split or convert

  const Empty := Image([], map[])

  /** One record applied by `load_from_journal`. A `B` on an empty deque is
      logged and skipped; `U`/`R` for an id holding nothing stop the load;
      `G` lines are not part of this journal format and are skipped. */
  function Apply(st: Image, r: Record): (res: Result<Image, LoadError>)
    ensures res.Err? <==> ((r.Used? || r.Returned?) && r.id !in st.lent)
    ensures res.Ok? && r.Stored? ==> res.value.ready == [Item(r.timeout, r.data)] + st.ready && res.value.lent == st.lent
    ensures res.Ok? && r.Borrowed? && st.ready != [] ==>
      res.value.ready + [st.ready[|st.ready| - 1]] == st.ready &&
      res.value.lent == st.lent[r.id := st.ready[|st.ready| - 1]]
    ensures res.Ok? && r.Used? ==> res.value.ready == st.ready && res.value.lent == st.lent - {r.id}
    ensures res.Ok? && r.Returned? ==> res.value.ready == [st.lent[r.id]] + st.ready && res.value.lent == st.lent - {r.id}
    ensures res.Ok? && (r.Got? || (r.Borrowed? && st.ready == [])) ==> res.value == st
  {
    match r
    case Stored(t, d) => Ok(Image([Item(t, d)] + st.ready, st.lent))
    case Got => Ok(st)
    case Borrowed(id) =>
      if st.ready == [] then Ok(st)
      else
        var n := |st.ready|;
        Ok(Image(st.ready[..n - 1], st.lent[id := st.ready[n - 1]]))
    case Used(id) =>
      if id in st.lent then Ok(Image(st.ready, st.lent - {id})) else Err(Unlent(id))
    case Returned(id) =>
      if id in st.lent then Ok(Image([st.lent[id]] + st.ready, st.lent - {id})) else Err(Unlent(id))
  }

  /** The records applied in file order, stopping at the first failure. */
  function Replay(init: Image, rs: seq<Record>): Result<Image, LoadError>
    decreases |rs|
  {
    if rs == [] then Ok(init)
    else
      match Replay(init, rs[..|rs| - 1])
      case Err(e) => Err(e)
      case Ok(st) => Apply(st, rs[|rs| - 1])
  }

  /** Some enumeration of a set of keys: Python 2 dictionaries iterate in an
      order the program does not control. */
  ghost function Enumerate(keys: set<string>): (o: seq<string>)
    ensures |o| == |keys| && Distinct(o)
    ensures forall i :: 0 <= i < |o| ==> o[i] in keys
    ensures keys == set k | k in o
    decreases |keys|
  {
    if keys == {} then []
    else
      var k :| k in keys;
      var rest := Enumerate(keys - {k});
      assert forall i :: 0 <= i < |rest| ==> rest[i] != k;
      assert keys == (keys - {k}) + {k};
      [k] + rest
  }

  /** The loader's fold-back, visiting the ids in `order`: each entry still
      lent is put back at the left end, so the one visited last ends up
      leftmost and all of them sit to the left of the replayed deque. */
  function FoldBack(ready: seq<Item>, lent: map<string, Item>, order: seq<string>): (r: seq<Item>)
    requires forall i :: 0 <= i < |order| ==> order[i] in lent
    ensures |r| == |ready| + |order| && r[|order|..] == ready
    ensures forall i :: 0 <= i < |order| ==> r[i] == lent[order[|order| - 1 - i]]
    decreases |order|
  {
    if order == [] then ready else FoldBack([lent[order[0]]] + ready, lent, order[1..])
  }

  /** `load_from_journal`: replay the file onto the queue's deque with an
      empty scratch table, fold leftovers back and clear the lent table. */
  ghost function LoadFromJournal(q: Queue, text: string): (r: Result<Queue, LoadError>)
    ensures r.Ok? ==> r.value.key == q.key && r.value.lent == map[] && r.value.journal == q.journal
    ensures r.Ok? <==> Parse(text).error == None && Replay(Image(q.ready, map[]), Parse(text).records).Ok?
  {
    var p := Parse(text);
    match Replay(Image(q.ready, map[]), p.records)
    case Err(e) => Err(e)
    case Ok(st) =>
      if p.error.Some? then Err(Unreadable(p.error.value))
      else Ok(q.(ready := FoldBack(st.ready, st.lent, Enumerate(st.lent.Keys)), lent := map[]))
  }

  /** Restoring one key as `scan_journals` does: `get_queue` opens the key's journal
      file for appending (so the file stays the queue's journal) and
      `load_from_journal` replays it. */
  ghost function Restore(key: string, text: string): (r: Result<Queue, LoadError>)
    ensures r.Ok? ==> r.value.key == key && r.value.lent == map[] && r.value.journal == Parse(text).records
  {
    LoadFromJournal(NewQueue(key).(journal := Parse(text).records), text)
  }

  // ---------------------------------------------------------------------
  // Replay and live operations

  /** The live queue is what its current journal file replays to (before
      the fold-back), and every id in the file reads back as written. */
  ghost predicate Consistent(q: Queue) {
    Replay(Empty, q.journal) == Ok(Image(q.ready, q.lent)) && AllWellFormed(q.journal)
  }

  lemma ReplaySnoc(init: Image, rs: seq<Record>, r: Record)
    ensures Replay(init, rs + [r]) ==
      match Replay(init, rs) case Err(e) => Err(e) case Ok(st) => Apply(st, r)
  {
    assert (rs + [r])[..|rs|] == rs;
  }

  lemma WellFormedSnoc(rs: seq<Record>, r: Record)
    requires AllWellFormed(rs) && WellFormed(r)
    ensures AllWellFormed(rs + [r])
  {
  }

  lemma NewQueueConsistent(key: string)
    ensures Consistent(NewQueue(key))
  {
  }

  lemma GiveConsistent(q: Queue, timeout: int, data: string)
    requires Consistent(q)
    ensures Consistent(Give(q, timeout, data))
  {
    ReplaySnoc(Empty, q.journal, Stored(timeout, data));
    WellFormedSnoc(q.journal, Stored(timeout, data));
  }

  lemma GiveBackConsistent(q: Queue, id: string)
    requires Consistent(q) && id in q.lent && ValidId(id)
    ensures Consistent(GiveBack(q, id))
  {
    ReplaySnoc(Empty, q.journal, Returned(id));
    WellFormedSnoc(q.journal, Returned(id));
  }

  lemma UseConsistent(q: Queue, id: string)
    requires Consistent(q) && ValidId(id)
    ensures Consistent(Use(q, id))
  {
    if id in q.lent {
      ReplaySnoc(Empty, q.journal, Used(id));
      WellFormedSnoc(q.journal, Used(id));
    }
  }

  /** A reservation keeps the journal in step whenever it lends an entry:
      its `B id` lines pop the same entries in the replay, and the last one
      lends the entry handed out to the same id, overwriting the slot the
      expired pops before it filled. An empty deque writes nothing. */
  lemma ReserveConsistent(q: Queue, id: string, now: int)
    requires Consistent(q) && ValidId(id)
    requires id in q.lent ==> AllExpired(q.ready, now)
    requires Reserve(q, id, now).item.Some? || q.ready == []
    ensures Consistent(Reserve(q, id, now).queue)
  {
    var r := Reserve(q, id, now);
    var m := |q.ready| - |r.queue.ready|;
    if q.ready != [] {
      ReplayAppend(Empty, q.journal, Borrows(id, m));
      ReplayBorrows(Image(q.ready, q.lent), id, m);
      AppendWellFormed(q.journal, Borrows(id, m));
    } else {
      assert r.queue.journal == q.journal + Borrows(id, 0) == q.journal;
    }
  }

  /** Replaying `m` lines `B id` pops `m` entries off the right end; the
      table ends with `id` lent the last of them. */
  lemma {:induction false} ReplayBorrows(st: Image, id: string, m: nat)
    requires 1 <= m <= |st.ready|
    ensures Replay(st, Borrows(id, m)) ==
      Ok(Image(st.ready[..|st.ready| - m], st.lent[id := st.ready[|st.ready| - m]]))
    decreases m
  {
    var rs := Borrows(id, m);
    var n := |st.ready|;
    assert rs[..m - 1] == Borrows(id, m - 1) && rs[m - 1] == Borrowed(id);
    var prev := if m == 1 then st else Image(st.ready[..n - m + 1], st.lent[id := st.ready[n - m + 1]]);
    if m == 1 {
      assert Replay(st, rs[..m - 1]) == Ok(prev);
    } else {
      ReplayBorrows(st, id, m - 1);
    }
    BorrowStep(st, prev, id, n - m);
  }

  /** One `B id` on a prefix of `st`'s deque of length `k + 1`. */
  lemma BorrowStep(st: Image, prev: Image, id: string, k: nat)
    requires k < |st.ready| && prev.ready == st.ready[..k + 1]
    requires prev.lent == st.lent || (id in prev.lent && prev.lent == st.lent[id := prev.lent[id]])
    ensures Apply(prev, Borrowed(id)) == Ok(Image(st.ready[..k], st.lent[id := st.ready[k]]))
  {
    assert prev.ready[..k] == st.ready[..k] && prev.ready[k] == st.ready[k];
    var v := st.ready[k];
    assert prev.lent[id := v].Keys == st.lent[id := v].Keys;
    assert prev.lent[id := v] == st.lent[id := v];
  }

  /** With nothing expired, a reservation on a non-empty deque lends. */
  lemma LiveReserve(q: Queue, id: string, now: int)
    requires NoneExpired(q.ready, now) && (id in q.lent ==> AllExpired(q.ready, now))
    ensures Reserve(q, id, now).item.Some? || q.ready == []
  {
    if q.ready != [] {
      assert !Expired(q.ready[|q.ready| - 1], now);
    }
  }

  /** The same for `take`, whose acknowledgement then writes `U id`. */
  lemma TakeConsistent(q: Queue, id: string, now: int)
    requires Consistent(q) && ValidId(id)
    requires id in q.lent ==> AllExpired(q.ready, now)
    requires Take(q, id, now).item.Some? || q.ready == []
    ensures Consistent(Take(q, id, now).queue)
  {
    ReserveConsistent(q, id, now);
    var r := Reserve(q, id, now);
    if r.item.Some? {
      UseConsistent(r.queue, id);
    }
  }

  /** Rotation safety: a rotated journal is empty and so is the queue, so the
      fresh file alone replays to the live state. */
  lemma RotationSafe(q: Queue)
    requires RotationDue(q)
    ensures Consistent(RotateJournal(q))
    ensures RotateJournal(q).journal == [] && RotateJournal(q).archived == q.archived + [q.journal]
  {
  }

  // ---------------------------------------------------------------------
  // Replay of the live file

  lemma FoldBackEmpty(ready: seq<Item>, lent: map<string, Item>)
    ensures FoldBack(ready, lent, []) == ready
  {
  }

  /** Replay equivalence: restoring from the file a consistent queue has
      written gives its deque with every entry still lent folded back at
      the left end, and an empty lent table. */
  lemma RestoreOfLiveJournal(q: Queue)
    requires Consistent(q)
    ensures Restore(q.key, EncodeAll(q.journal)) ==
      Ok(Queue(q.key, FoldBack(q.ready, q.lent, Enumerate(q.lent.Keys)), map[], q.journal, []))
  {
    ParseEncodeAll(q.journal);
  }

  /** With nothing lent, restoring reproduces the live deque exactly. */
  lemma RestoreWithNothingLent(q: Queue)
    requires Consistent(q) && q.lent == map[]
    ensures Restore(q.key, EncodeAll(q.journal)).Ok?
    ensures Restore(q.key, EncodeAll(q.journal)).value.ready == q.ready
  {
    RestoreOfLiveJournal(q);
    assert q.lent.Keys == {};
    assert Enumerate(q.lent.Keys) == [];
  }

  /** With one outstanding borrower, restoring gives exactly the deque that
      `give_back` of that borrower would give. */
  lemma RestoreWithOneBorrower(q: Queue, id: string)
    requires Consistent(q) && q.lent.Keys == {id}
    ensures Restore(q.key, EncodeAll(q.journal)).Ok?
    ensures Restore(q.key, EncodeAll(q.journal)).value.ready == GiveBack(q, id).ready
  {
    RestoreOfLiveJournal(q);
    var o := Enumerate(q.lent.Keys);
    assert |o| == 1 && o[0] in q.lent.Keys;
    var r := FoldBack(q.ready, q.lent, o);
    assert r[1..] == q.ready && r[0] == q.lent[id];
    assert r == [r[0]] + r[1..];
  }

  /** The lent entries, listed in the order the ids are visited. */
  function ValuesIn(lent: map<string, Item>, order: seq<string>): (vs: seq<Item>)
    requires forall i :: 0 <= i < |order| ==> order[i] in lent
    ensures |vs| == |order| && forall i :: 0 <= i < |order| ==> vs[i] == lent[order[i]]
  {
    if order == [] then [] else [lent[order[0]]] + ValuesIn(lent, order[1..])
  }

  /** Folding back loses and invents nothing: the result holds, as a
      multiset, the deque plus one entry per visited id. */
  lemma {:induction false} FoldBackMultiset(ready: seq<Item>, lent: map<string, Item>, order: seq<string>)
    requires forall i :: 0 <= i < |order| ==> order[i] in lent
    ensures multiset(FoldBack(ready, lent, order)) == multiset(ready) + multiset(ValuesIn(lent, order))
    decreases |order|
  {
    if order != [] {
      FoldBackMultiset([lent[order[0]]] + ready, lent, order[1..]);
      assert ValuesIn(lent, order) == [lent[order[0]]] + ValuesIn(lent, order[1..]);
    }
  }

  /** Conservation across a restore: the restored deque holds, as a
      multiset, the live deque plus exactly one entry per outstanding
      borrower, and the live deque is its right-hand (next to pop) part. */
  lemma RestoreConserves(q: Queue)
    requires Consistent(q)
    ensures Restore(q.key, EncodeAll(q.journal)).Ok?
    ensures |Restore(q.key, EncodeAll(q.journal)).value.ready| == |q.ready| + |q.lent|
    ensures Restore(q.key, EncodeAll(q.journal)).value.ready[|q.lent|..] == q.ready
    ensures multiset(Restore(q.key, EncodeAll(q.journal)).value.ready) ==
      multiset(q.ready) + multiset(ValuesIn(q.lent, Enumerate(q.lent.Keys)))
  {
    RestoreOfLiveJournal(q);
    var o := Enumerate(q.lent.Keys);
    assert |o| == |q.lent.Keys| == |q.lent|;
    FoldBackMultiset(q.ready, q.lent, o);
  }

  // ---------------------------------------------------------------------
  // Replay caveat: expired entries

  /** A `reserve` that only pops an expired entry still writes `B id`; the
      replay keeps that entry lent and then folds it back, so a restore
      brings back an entry the live queue had already dropped. */
  lemma ExpiredEntryComesBack()
    ensures var q := Reserve(Give(NewQueue("k"), 5, "x"), "7", 10);
      q.item == None && q.queue.ready == [] && q.queue.lent == map[] &&
      Restore("k", EncodeAll(q.queue.journal)).Ok? &&
      Restore("k", EncodeAll(q.queue.journal)).value.ready == [Item(5, "x")]
  {
    ExpiredReserve();
    ExpiredFileReplay();
    ExpiredFileRestore();
  }

  lemma ExpiredReserve()
    ensures var q := Reserve(Give(NewQueue("k"), 5, "x"), "7", 10);
      q.item == None && q.queue.ready == [] && q.queue.lent == map[] &&
      q.queue.journal == [Stored(5, "x"), Borrowed("7")]
  {
    assert Borrows("7", 1) == [Borrowed("7")];
  }

  lemma ExpiredFileRestore()
    ensures Restore("k", EncodeAll([Stored(5, "x"), Borrowed("7")])).Ok?
    ensures Restore("k", EncodeAll([Stored(5, "x"), Borrowed("7")])).value.ready == [Item(5, "x")]
  {
    ExpiredFileReplay();
    RestoreOfReplay("k", [Stored(5, "x"), Borrowed("7")], Image([], map["7" := Item(5, "x")]));
    FoldBackSingle("7", Item(5, "x"));
  }

  /** The file that expired pop leaves: `x` stored, then popped by 7. */
  lemma ExpiredFileReplay()
    ensures AllWellFormed([Stored(5, "x"), Borrowed("7")])
    ensures Replay(Empty, [Stored(5, "x"), Borrowed("7")]) == Ok(Image([], map["7" := Item(5, "x")]))
  {
    assert ValidId("7");
    StoreThenBorrow(5, "x", "7");
  }

  /** A file holding one stored entry, then that entry borrowed. */
  lemma StoreThenBorrow(t: int, d: string, id: string)
    ensures Replay(Empty, [Stored(t, d), Borrowed(id)]) == Ok(Image([], map[id := Item(t, d)]))
  {
    StoreBorrowOn(Empty, t, d, id);
  }

  /** On an empty deque, an entry stored and then borrowed ends up lent. */
  lemma StoreBorrowOn(st: Image, t: int, d: string, id: string)
    requires st.ready == []
    ensures Replay(st, [Stored(t, d), Borrowed(id)]) == Ok(Image([], st.lent[id := Item(t, d)]))
  {
    var s1 := Image([Item(t, d)], st.lent);
    ReplayOne(st, Stored(t, d));
    assert [Item(t, d)] + st.ready == s1.ready;
    assert Apply(s1, Borrowed(id)) == Ok(Image([], st.lent[id := Item(t, d)]));
    ReplaySnoc(st, [Stored(t, d)], Borrowed(id));
    assert [Stored(t, d)] + [Borrowed(id)] == [Stored(t, d), Borrowed(id)];
  }

  lemma ReplayOne(st: Image, r: Record)
    ensures Replay(st, [r]) == Apply(st, r)
  {
    ReplaySnoc(st, [], r);
    assert [] + [r] == [r];
  }

  /** Folding back a single leftover borrow onto an empty deque. */
  lemma FoldBackSingle(id: string, it: Item)
    ensures FoldBack([], map[id := it], Enumerate(map[id := it].Keys)) == [it]
  {
    assert map[id := it].Keys == {id};
    SingletonEnumerate(id);
  }

  lemma SingletonEnumerate(id: string)
    ensures Enumerate({id}) == [id]
  {
    var o := Enumerate({id});
    assert |o| == 1 && o[0] in {id};
  }

  // ---------------------------------------------------------------------
  // Journaling the fold-back

  /** The journal lines `R id` for the ids in `order`. */
  function Returns(order: seq<string>): (rs: seq<Record>)
    ensures |rs| == |order| && forall i :: 0 <= i < |order| ==> rs[i] == Returned(order[i])
  {
    if order == [] then [] else [Returned(order[0])] + Returns(order[1..])
  }

  lemma {:induction false} ReplayAppend(init: Image, a: seq<Record>, b: seq<Record>)
    ensures Replay(init, a + b) ==
      match Replay(init, a) case Err(e) => Err(e) case Ok(st) => Replay(st, b)
    decreases |b|
  {
    if b == [] {
      assert a + b == a;
    } else {
      var b' := b[..|b| - 1];
      ReplayAppend(init, a, b');
      assert (a + b)[..|a + b| - 1] == a + b';
      assert (a + b)[|a + b| - 1] == b[|b| - 1];
    }
  }

  lemma FoldBackAgree(ready: seq<Item>, l1: map<string, Item>, l2: map<string, Item>, order: seq<string>)
    requires forall i :: 0 <= i < |order| ==> order[i] in l1 && order[i] in l2 && l1[order[i]] == l2[order[i]]
    ensures FoldBack(ready, l1, order) == FoldBack(ready, l2, order)
  {
    var r1, r2 := FoldBack(ready, l1, order), FoldBack(ready, l2, order);
    assert |r1| == |r2|;
    forall i | 0 <= i < |r1| ensures r1[i] == r2[i] {
      if i >= |order| {
        assert r1[i] == r1[|order|..][i - |order|];
        assert r2[i] == r2[|order|..][i - |order|];
      }
    }
  }

  /** The lent table once the ids in `order` have been removed. */
  function RemoveAll(lent: map<string, Item>, order: seq<string>): (r: map<string, Item>)
    ensures r.Keys <= lent.Keys && forall k :: k in r ==> r[k] == lent[k]
    ensures forall i :: 0 <= i < |order| ==> order[i] !in r
    ensures forall k :: k in lent && k !in order ==> k in r
    decreases |order|
  {
    if order == [] then lent
    else
      var r := RemoveAll(lent - {order[0]}, order[1..]);
      assert forall i :: 0 < i < |order| ==> order[i] == order[1..][i - 1];
      r
  }

  lemma RemoveAllCovered(lent: map<string, Item>, order: seq<string>)
    requires lent.Keys == set k | k in order
    ensures RemoveAll(lent, order) == map[]
  {
    var r := RemoveAll(lent, order);
    forall k | k in lent ensures k !in r {
      assert k in order;
    }
    assert r.Keys == {};
  }

  lemma ReplayReturned(st: Image, id: string)
    requires id in st.lent
    ensures Replay(st, [Returned(id)]) == Ok(Image([st.lent[id]] + st.ready, st.lent - {id}))
  {
    ReplaySnoc(st, [], Returned(id));
    assert [] + [Returned(id)] == [Returned(id)];
  }

  /** Replaying `R id` for distinct lent ids performs exactly the fold-back
      over those ids and removes them from the scratch table. */
  lemma {:induction false} ReplayReturns(st: Image, order: seq<string>)
    requires Distinct(order) && forall i :: 0 <= i < |order| ==> order[i] in st.lent
    ensures Replay(st, Returns(order)) == Ok(Image(FoldBack(st.ready, st.lent, order), RemoveAll(st.lent, order)))
    decreases |order|
  {
    if order != [] {
      var id, rest := order[0], order[1..];
      var next := Image([st.lent[id]] + st.ready, st.lent - {id});
      ReplayAppend(st, [Returned(id)], Returns(rest));
      ReplayReturned(st, id);
      assert forall i :: 0 <= i < |rest| ==> rest[i] == order[i + 1] && rest[i] != id;
      ReplayReturns(next, rest);
      FoldBackAgree(next.ready, next.lent, st.lent, rest);
    }
  }

  /** Corrected restore: the same in-memory result as `Restore`, but every
      entry folded back is also journaled as `R id`, in fold order, so that
      the journal file keeps describing the live queue. */
  ghost function RestoreJournaled(key: string, text: string): (r: Result<Queue, LoadError>)
    ensures r.Ok? <==> Restore(key, text).Ok?
    ensures r.Ok? ==> r.value.key == key && r.value.lent == map[] && r.value.ready == Restore(key, text).value.ready
  {
    var p := Parse(text);
    match Replay(Empty, p.records)
    case Err(e) => Err(e)
    case Ok(st) =>
      if p.error.Some? then Err(Unreadable(p.error.value))
      else
        var o := Enumerate(st.lent.Keys);
        Ok(Queue(key, FoldBack(st.ready, st.lent, o), map[], p.records + Returns(o), []))
  }

  /** Lent ids of a replayed image come from `B id` lines, so they are tokens. */
  lemma {:induction false} ReplayIdsValid(init: Image, rs: seq<Record>)
    requires AllWellFormed(rs) && forall id :: id in init.lent ==> ValidId(id)
    ensures Replay(init, rs).Ok? ==> forall id :: id in Replay(init, rs).value.lent ==> ValidId(id)
    decreases |rs|
  {
    if rs != [] {
      var front := rs[..|rs| - 1];
      assert AllWellFormed(front) by {
        forall i | 0 <= i < |front| ensures WellFormed(front[i]) { assert front[i] == rs[i]; }
      }
      ReplayIdsValid(init, front);
      assert WellFormed(rs[|rs| - 1]);
    }
  }

  lemma ReturnsWellFormed(order: seq<string>)
    requires forall i :: 0 <= i < |order| ==> ValidId(order[i])
    ensures AllWellFormed(Returns(order))
  {
  }

  lemma AppendWellFormed(a: seq<Record>, b: seq<Record>)
    requires AllWellFormed(a) && AllWellFormed(b)
    ensures AllWellFormed(a + b)
  {
    forall i | 0 <= i < |a + b| ensures WellFormed((a + b)[i]) {
      if i >= |a| { assert (a + b)[i] == b[i - |a|]; }
    }
  }

  /** The corrected restore leaves a queue whose journal replays to it. */
  lemma RestoreJournaledConsistent(key: string, text: string)
    requires RestoreJournaled(key, text).Ok?
    ensures Consistent(RestoreJournaled(key, text).value)
  {
    var p := Parse(text);
    var st := Replay(Empty, p.records).value;
    var o := Enumerate(st.lent.Keys);
    ReplayAppend(Empty, p.records, Returns(o));
    ReplayReturns(st, o);
    RemoveAllCovered(st.lent, o);
    ReplayIdsValid(Empty, p.records);
    ReturnsWellFormed(o);
    AppendWellFormed(p.records, Returns(o));
  }

  /** Live queue after restoring with the corrected restore and carrying on:
      restoring its journal again reproduces it, with no entry lost or
      duplicated. */
  lemma RestoreJournaledRoundTrip(key: string, text: string)
    requires RestoreJournaled(key, text).Ok?
    ensures var q := RestoreJournaled(key, text).value;
      Restore(key, EncodeAll(q.journal)) == Ok(Queue(key, q.ready, map[], q.journal, []))
  {
    var q := RestoreJournaled(key, text).value;
    RestoreJournaledConsistent(key, text);
    RestoreOfLiveJournal(q);
    assert q.lent.Keys == {};
    assert Enumerate(q.lent.Keys) == [];
  }

  // ---------------------------------------------------------------------
  // The source's restore does not journal its fold-back

  /** The file of the counterexample below: `a` stored, then borrowed by 7. */
  const BorrowedFile: seq<Record> := [Stored(0, "a"), Borrowed("7")]

  lemma BorrowedFileReplay()
    ensures Replay(Empty, BorrowedFile) == Ok(Image([], map["7" := Item(0, "a")]))
    ensures AllWellFormed(BorrowedFile)
    ensures Parse(EncodeAll(BorrowedFile)) == Parsed(BorrowedFile, None)
  {
    assert ValidId("7");
    ParseEncodeAll(BorrowedFile);
    StoreThenBorrow(0, "a", "7");
  }

  lemma BorrowedFileRestore()
    ensures Restore("k", EncodeAll(BorrowedFile)) == Ok(Queue("k", [Item(0, "a")], map[], BorrowedFile, []))
  {
    BorrowedFileReplay();
    RestoreOfReplay("k", BorrowedFile, Image([], map["7" := Item(0, "a")]));
    FoldBackSingle("7", Item(0, "a"));
  }

  /** What a `give` of `c` and a `take` by 8 append after that restore. */
  const LaterLines: seq<Record> := [Stored(0, "c"), Borrowed("8"), Used("8")]

  lemma LaterLinesReplay()
    ensures Replay(Image([], map["7" := Item(0, "a")]), LaterLines) == Ok(Image([], map["7" := Item(0, "a")]))
  {
    StoreTakeUse(Image([], map["7" := Item(0, "a")]), 0, "c", "8");
  }

  /** On an empty deque, an entry stored, borrowed and used by an id that
      held nothing leaves the replay state as it was. */
  lemma StoreTakeUse(st: Image, t: int, d: string, id: string)
    requires st.ready == [] && id !in st.lent
    ensures Replay(st, [Stored(t, d), Borrowed(id), Used(id)]) == Ok(st)
  {
    var s2 := Image([], st.lent[id := Item(t, d)]);
    StoreBorrowOn(st, t, d, id);
    ReplaySnoc(st, [Stored(t, d), Borrowed(id)], Used(id));
    assert [Stored(t, d), Borrowed(id)] + [Used(id)] == [Stored(t, d), Borrowed(id), Used(id)];
    assert s2.lent - {id} == st.lent;
  }

  lemma GiveTakeAfterRestore(q1: Queue)
    requires q1 == Queue("k", [Item(0, "a")], map[], BorrowedFile, [])
    ensures var t := Take(Give(q1, 0, "c"), "8", 0);
      t.item == Some(Item(0, "a")) && t.queue.ready == [Item(0, "c")] && t.queue.lent == map[] &&
      t.queue.journal == BorrowedFile + LaterLines
  {
    var q2 := Give(q1, 0, "c");
    assert q2.ready == [Item(0, "c"), Item(0, "a")];
    var r := Reserve(q2, "8", 0);
    assert r.item == Some(Item(0, "a")) && r.queue.ready == [Item(0, "c")];
    assert r.queue.journal == BorrowedFile + [Stored(0, "c"), Borrowed("8")];
    assert !RotationDue(r.queue.(lent := r.queue.lent - {"8"}));
  }

  /** Restoring the encoding of well-formed records that replay from
      nothing to `st` gives `st` with its lent entries folded back. */
  lemma RestoreOfReplay(key: string, rs: seq<Record>, st: Image)
    requires AllWellFormed(rs) && Replay(Empty, rs) == Ok(st)
    ensures Restore(key, EncodeAll(rs)) ==
      Ok(Queue(key, FoldBack(st.ready, st.lent, Enumerate(st.lent.Keys)), map[], rs, []))
  {
    ParseEncodeAll(rs);
  }

  lemma StaleFileWellFormed()
    ensures AllWellFormed(BorrowedFile + LaterLines)
  {
    var j2 := BorrowedFile + LaterLines;
    assert j2 == [Stored(0, "a"), Borrowed("7"), Stored(0, "c"), Borrowed("8"), Used("8")];
    assert ValidId("7") && ValidId("8");
  }

  lemma StaleFileReplay()
    ensures Replay(Empty, BorrowedFile + LaterLines) == Ok(Image([], map["7" := Item(0, "a")]))
  {
    BorrowedFileReplay();
    ReplayAppend(Empty, BorrowedFile, LaterLines);
    LaterLinesReplay();
  }

  lemma StaleFileRestore()
    ensures Restore("k", EncodeAll(BorrowedFile + LaterLines)) ==
      Ok(Queue("k", [Item(0, "a")], map[], BorrowedFile + LaterLines, []))
  {
    StaleFileWellFormed();
    StaleFileReplay();
    RestoreOfReplay("k", BorrowedFile + LaterLines, Image([], map["7" := Item(0, "a")]));
    FoldBackSingle("7", Item(0, "a"));
  }

  /** As written, a restore folds a leftover borrow back without a journal
      line. Here the file holds `a` borrowed by 7; after the restore `a` is
      queued again, `c` is given and a `take` by 8 delivers `a`. The next
      restore replays `B 8` against `c`, brings `a` back a second time and
      loses `c`. */
  lemma StaleBorrowAfterRestore()
    ensures Restore("k", EncodeAll(BorrowedFile)).Ok?
    ensures var t := Take(Give(Restore("k", EncodeAll(BorrowedFile)).value, 0, "c"), "8", 0);
      t.item == Some(Item(0, "a")) && t.queue.ready == [Item(0, "c")] && t.queue.lent == map[] &&
      Restore("k", EncodeAll(t.queue.journal)) == Ok(Queue("k", [Item(0, "a")], map[], t.queue.journal, []))
  {
    BorrowedFileRestore();
    GiveTakeAfterRestore(Restore("k", EncodeAll(BorrowedFile)).value);
    StaleFileRestore();
  }
}
