/** One key's queue in the `redqueue` package: a deque of entries, a table of
    entries lent to protocol ids, and the journal file that records every
    change. The deque is a sequence whose index 0 is Python's left end
    (`appendleft`) and whose last element is the end `pop()` takes from. */
module Queues {
  import opened Common
  import opened Journal

  /** Rotation threshold in bytes; the source sets it to 1. */
  const JOURNAL_CAPACITY: nat := 1

  /** `journal` is the current journal file as records; `archived` holds
      the files that rotation renamed away, oldest first. */
  datatype Queue = Queue(
    key: string,
    ready: seq<Item>,
    lent: map<string, Item>,
    journal: seq<Record>,
    archived: seq<seq<Record>>)

  /** The queue `get_queue` creates: empty, with its journal file just opened. */
  function NewQueue(key: string): (q: Queue)
    ensures q.key == key && q.ready == [] && q.lent == map[] && q.journal == []
  {
    Queue(key, [], map[], [], [])
  }

  /** What `tell()` reports on the journal file: its size in bytes. */
  function JournalSize(q: Queue): nat {
    |EncodeAll(q.journal)|
  }

  /** Rotation is due exactly when nothing is queued or lent and the file
      has reached the capacity. */
  predicate RotationDue(q: Queue) {
    |q.ready| == 0 && |q.lent| == 0 && JournalSize(q) >= JOURNAL_CAPACITY
  }

  /** `ReliableQueue.rotate_journal` once the file is open: archive the
      current file and start an empty one, only when rotation is due. */
  function RotateJournal(q: Queue): (r: Queue)
    ensures r.key == q.key && r.ready == q.ready && r.lent == q.lent
    ensures r.journal == [] || r.journal == q.journal
    ensures r.journal != q.journal <==> RotationDue(q)
    ensures r.archived == if RotationDue(q) then q.archived + [q.journal] else q.archived
  {
    if RotationDue(q) then q.(journal := [], archived := q.archived + [q.journal]) else q
  }

  /** `give`: new entries enter at the left end. */
  function Give(q: Queue, timeout: int, data: string): (r: Queue)
    ensures r.key == q.key && r.lent == q.lent && r.archived == q.archived
    ensures |r.ready| == |q.ready| + 1 && r.ready[0] == Item(timeout, data) && r.ready[1..] == q.ready
    ensures r.journal == q.journal + [Stored(timeout, data)]
  {
    q.(ready := [Item(timeout, data)] + q.ready, journal := q.journal + [Stored(timeout, data)])
  }

  /** `give_back`: the entry lent to `id` re-enters at the left end, the same
      end `give` uses. The source raises when `id` holds nothing. */
  function GiveBack(q: Queue, id: string): (r: Queue)
    requires id in q.lent
    ensures r.key == q.key && r.archived == q.archived
    ensures r.ready == [q.lent[id]] + q.ready
    ensures id !in r.lent && forall other :: other in q.lent && other != id ==> other in r.lent && r.lent[other] == q.lent[other]
    ensures r.lent.Keys == q.lent.Keys - {id}
    ensures r.journal == q.journal + [Returned(id)]
  {
    q.(ready := [q.lent[id]] + q.ready, lent := q.lent - {id}, journal := q.journal + [Returned(id)])
  }

  /** `use`: acknowledge the entry lent to `id` if there is one, then let
      the journal rotate. */
  function Use(q: Queue, id: string): (r: Queue)
    ensures r.key == q.key && r.ready == q.ready
    ensures id !in r.lent && r.lent == q.lent - {id}
    ensures id in q.lent ==>
      (r.journal == q.journal + [Used(id)] && r.archived == q.archived) ||
      (r.journal == [] && r.archived == q.archived + [q.journal + [Used(id)]] && r.ready == [] && r.lent == map[])
    ensures id !in q.lent ==>
      (r.journal == q.journal && r.archived == q.archived) ||
      (r.journal == [] && r.archived == q.archived + [q.journal] && r.ready == [] && r.lent == map[])
  {
    var acked := if id in q.lent then q.(journal := q.journal + [Used(id)], lent := q.lent - {id}) else q;
    RotateJournal(acked)
  }

  /** A pop-like call's outcome: the queue afterwards and the entry handed out. */
  datatype Reserved = Reserved(queue: Queue, item: Option<Item>)

  /** `n` journal lines `B id`. */
  function Borrows(id: string, n: nat): (rs: seq<Record>)
    ensures |rs| == n && forall i :: 0 <= i < n ==> rs[i] == Borrowed(id)
  {
    if n == 0 then [] else Borrows(id, n - 1) + [Borrowed(id)]
  }

  /** `reserve`: pop from the right end, writing `B id` for every entry
      popped; expired entries are dropped and the scan goes on; the first
      live entry is lent to `id`. The source asserts that `id` holds nothing
      at the moment it lends. */
  function Reserve(q: Queue, id: string, now: int): (r: Reserved)
    requires id in q.lent ==> AllExpired(q.ready, now)
    ensures r.queue.key == q.key && r.queue.archived == q.archived
    ensures |r.queue.ready| <= |q.ready| && r.queue.ready == q.ready[..|r.queue.ready|]
    ensures r.queue.journal == q.journal + Borrows(id, |q.ready| - |r.queue.ready|)
    ensures r.item.None? ==>
      r.queue.ready == [] && r.queue.lent == q.lent && AllExpired(q.ready, now)
    ensures r.item.Some? ==>
      var k := |r.queue.ready|;
      k < |q.ready| && q.ready[k] == r.item.value && !Expired(r.item.value, now) &&
      (forall i :: k < i < |q.ready| ==> Expired(q.ready[i], now)) &&
      id !in q.lent && r.queue.lent == q.lent[id := r.item.value]
  {
    var k := Skip(q.ready, now);
    var popped := Borrows(id, |q.ready| - k);
    if k == 0 then Reserved(q.(ready := [], journal := q.journal + popped), None)
    else
      var it := q.ready[k - 1];
      Reserved(q.(ready := q.ready[..k - 1], lent := q.lent[id := it], journal := q.journal + popped + [Borrowed(id)]), Some(it))
  }

  /** `take(id)`: reserve, then acknowledge at once when an entry came out. */
  function Take(q: Queue, id: string, now: int): (r: Reserved)
    requires id in q.lent ==> AllExpired(q.ready, now)
    ensures r.queue.key == q.key
    ensures r.item == Reserve(q, id, now).item
    ensures r.queue.ready == Reserve(q, id, now).queue.ready
    ensures r.item.Some? ==> id !in r.queue.lent && r.queue.lent == q.lent
    ensures r.item.Some? ==>
      r.queue.journal == Reserve(q, id, now).queue.journal + [Used(id)] ||
      (r.queue.journal == [] && r.queue.ready == [] && r.queue.lent == map[])
    ensures r.item.None? ==> r.queue == Reserve(q, id, now).queue && r.queue.lent == q.lent && r.queue.ready == []
  {
    var res := Reserve(q, id, now);
    if res.item.Some? then Reserved(Use(res.queue, id), res.item) else res
  }
}
