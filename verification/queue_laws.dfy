/** Properties of the `redqueue` package queue's live operations: FIFO
    delivery, what `reserve` consumes, and idempotent acknowledgement. */
module QueueLaws {
  import opened Common
  import opened Journal
  import opened Queues

  /** `give` each entry in turn, first entry first. */
  function GiveAll(q: Queue, items: seq<Item>): (r: Queue)
    ensures r.key == q.key && r.lent == q.lent
    ensures |r.ready| == |items| + |q.ready| && r.ready[|items|..] == q.ready
    ensures forall i :: 0 <= i < |items| ==> r.ready[i] == items[|items| - 1 - i]
    decreases |items|
  {
    if items == [] then q
    else
      var it := items[|items| - 1];
      Give(GiveAll(q, items[..|items| - 1]), it.timeout, it.data)
  }

  datatype Taken = Taken(queue: Queue, items: seq<Option<Item>>)

  /** `n` successive `take(id)` calls and what each returned. */
  function TakeN(q: Queue, id: string, now: int, n: nat): (r: Taken)
    requires id !in q.lent
    ensures |r.items| == n && id !in r.queue.lent && r.queue.key == q.key
    decreases n
  {
    if n == 0 then Taken(q, [])
    else
      var t := Take(q, id, now);
      var rest := TakeN(t.queue, id, now, n - 1);
      Taken(rest.queue, [t.item] + rest.items)
  }

  /** One `take` with no entry expired hands out the right-end entry and
      leaves only live entries behind. */
  lemma TakeLive(q: Queue, id: string, now: int)
    requires id !in q.lent && q.ready != [] && NoneExpired(q.ready, now)
    ensures Take(q, id, now).item == Some(q.ready[|q.ready| - 1])
    ensures Take(q, id, now).queue.ready == q.ready[..|q.ready| - 1]
    ensures NoneExpired(Take(q, id, now).queue.ready, now) && id !in Take(q, id, now).queue.lent
  {
    assert !Expired(q.ready[|q.ready| - 1], now);
  }

  /** Draining: with no entry expired, `take` hands out the entries from
      the right end inward, one per call, and leaves the deque empty. */
  lemma {:induction false} TakeNDrains(q: Queue, id: string, now: int)
    requires id !in q.lent && NoneExpired(q.ready, now)
    ensures TakeN(q, id, now, |q.ready|).queue.ready == []
    ensures TakeN(q, id, now, |q.ready|).items == Pops(q.ready)
    decreases |q.ready|
  {
    var n := |q.ready|;
    if n > 0 {
      TakeLive(q, id, now);
      TakeNStep(q, id, now, n);
      TakeNDrains(Take(q, id, now).queue, id, now);
    }
  }

  /** One `take`, then the remaining ones. */
  lemma TakeNStep(q: Queue, id: string, now: int, n: nat)
    requires id !in q.lent && n > 0
    ensures TakeN(q, id, now, n).items == [Take(q, id, now).item] + TakeN(Take(q, id, now).queue, id, now, n - 1).items
    ensures TakeN(q, id, now, n).queue == TakeN(Take(q, id, now).queue, id, now, n - 1).queue
  {
  }

  /** FIFO: entries given to an empty deque, none of them expired, come
      back out of successive `take` calls in the order they were given, and
      one more `take` finds nothing. */
  lemma Fifo(q: Queue, items: seq<Item>, id: string, now: int)
    requires q.ready == [] && id !in q.lent && NoneExpired(items, now)
    ensures forall i :: 0 <= i < |items| ==> TakeN(GiveAll(q, items), id, now, |items|).items[i] == Some(items[i])
    ensures Take(TakeN(GiveAll(q, items), id, now, |items|).queue, id, now).item == None
  {
    var g := GiveAll(q, items);
    GiveAllLive(q, items, now);
    TakeNDrains(g, id, now);
    PopsReversed(g.ready, items);
  }

  /** Giving live entries to an empty deque leaves only live entries. */
  lemma GiveAllLive(q: Queue, items: seq<Item>, now: int)
    requires q.ready == [] && NoneExpired(items, now)
    ensures NoneExpired(GiveAll(q, items).ready, now) && |GiveAll(q, items).ready| == |items|
  {
    var g := GiveAll(q, items);
    forall i | 0 <= i < |g.ready| ensures !Expired(g.ready[i], now) {
      assert g.ready[i] == items[|items| - 1 - i];
    }
  }

  /** Expiry and conservation of `reserve`: entries behind the one handed
      out are untouched, the entries popped before it are all expired and
      are gone for good, and the handed-out entry moves into the lent table
      under a fresh id. */
  lemma ReserveConserves(q: Queue, id: string, now: int)
    requires id in q.lent ==> AllExpired(q.ready, now)
    ensures var r := Reserve(q, id, now);
      r.item.Some? ==>
        var k := |r.queue.ready|;
        multiset(q.ready) == multiset(r.queue.ready) + multiset{r.item.value} + multiset(q.ready[k + 1..]) &&
        AllExpired(q.ready[k + 1..], now) &&
        id !in q.lent && r.queue.lent == q.lent[id := r.item.value]
  {
    var r := Reserve(q, id, now);
    if r.item.Some? {
      var k := |r.queue.ready|;
      assert q.ready == r.queue.ready + [r.item.value] + q.ready[k + 1..];
    }
  }

  /** `use` is idempotent: acknowledging twice is acknowledging once. */
  lemma UseIdempotent(q: Queue, id: string)
    ensures Use(Use(q, id), id) == Use(q, id)
  {
    var acked := if id in q.lent then q.(journal := q.journal + [Used(id)], lent := q.lent - {id}) else q;
    if RotationDue(acked) {
      assert Use(q, id).journal == [];
      assert JournalSize(Use(q, id)) == 0;
    }
  }

  /** `use` for an id that holds nothing changes no entry and writes no
      line; at most it lets an empty queue's journal rotate. */
  lemma UseUnknownId(q: Queue, id: string)
    requires id !in q.lent
    ensures Use(q, id).ready == q.ready && Use(q, id).lent == q.lent
    ensures Use(q, id) == q || (RotationDue(q) && Use(q, id).journal == [])
  {
  }
}
