/** The older single-file server (`redqueue.py`): its queue registry, the
    choice of log file per key at start-up, and one client connection,
    which holds at most one reserved key. */
module LegacyServer {
  import opened Common
  import opened Legacy
  import opened Sessions

  type LRegistry = map<string, LQueue>

  datatype LLookup = LLookup(registry: LRegistry, queue: Option<LQueue>)

  /** `Server.get_queue(key, auto_create)`. */
  function LGetQueue(f: LRegistry, key: string, autoCreate: bool): (r: LLookup)
    ensures r.queue.Some? <==> key in f || autoCreate
    ensures r.registry.Keys == if key in f || !autoCreate then f.Keys else f.Keys + {key}
    ensures forall k :: k in f ==> k in r.registry && r.registry[k] == f[k]
    ensures r.queue.Some? ==> key in r.registry && r.queue.value == r.registry[key]
    ensures key !in f && autoCreate ==> r.queue == Some(NewLQueue(key))
  {
    if key !in f && autoCreate then LLookup(f[key := NewLQueue(key)], Some(NewLQueue(key)))
    else LLookup(f, if key in f then Some(f[key]) else None)
  }

  /** The selection in `scan_logs`: given the (key, timestamp) pairs of the
      log files whose names end in `-<digits>.log`, keep for every key the
      largest timestamp. */
  method SelectLatest(files: seq<(string, nat)>) returns (latest: map<string, nat>)
    ensures latest.Keys == set i | 0 <= i < |files| :: files[i].0
    ensures forall i :: 0 <= i < |files| ==> files[i].1 <= latest[files[i].0]
    ensures forall k :: k in latest ==> (k, latest[k]) in files
  {
    latest := map[];
    var i := 0;
    while i < |files|
      invariant 0 <= i <= |files|
      invariant latest.Keys == set j | 0 <= j < i :: files[j].0
      invariant forall j :: 0 <= j < i ==> files[j].1 <= latest[files[j].0]
      invariant forall k :: k in latest ==> (k, latest[k]) in files[..i]
    {
      var (key, tm) := files[i];
      if key !in latest || tm > latest[key] {
        latest := latest[key := tm];
      }
      assert files[..i + 1] == files[..i] + [files[i]];
      i := i + 1;
    }
    assert files[..i] == files;
  }

  /** `protocol_id`, `reservation` and `reserved_key`. */
  datatype LSession = LSession(id: string, reservation: bool, reservedKey: Option<string>)

  datatype LConn = LConn(registry: LRegistry, session: LSession)

  datatype LAnswer = LAnswer(conn: LConn, replies: seq<Reply>)

  /** The invariant: the connection's id is a non-empty token; a queue
      lends to it only under the reserved key, which is set only in
      reservation mode. */
  predicate LInv(c: LConn) {
    var pid := c.session.id;
    pid != "" &&
    (forall k :: k in c.registry && pid in c.registry[k].borrowing ==> c.session.reservedKey == Some(k)) &&
    (c.session.reservedKey.Some? ==>
      c.session.reservedKey.value != "" && c.session.reservedKey.value in c.registry &&
      pid in c.registry[c.session.reservedKey.value].borrowing) &&
    (!c.session.reservation ==> c.session.reservedKey == None)
  }

  /** `use_key()`: acknowledge the reserved key's entry, if a key is held. */
  function LUseKey(c: LConn): (r: LConn)
    ensures r.session.id == c.session.id && r.session.reservation == c.session.reservation
    ensures Truthy(c.session.reservedKey) ==>
      r.session.reservedKey == None && c.session.reservedKey.value in r.registry &&
      c.session.id !in r.registry[c.session.reservedKey.value].borrowing &&
      forall k :: k in c.registry && k != c.session.reservedKey.value ==> k in r.registry && r.registry[k] == c.registry[k]
    ensures !Truthy(c.session.reservedKey) ==> r == c
  {
    if Truthy(c.session.reservedKey) then
      var k := c.session.reservedKey.value;
      var l := LGetQueue(c.registry, k, true);
      LConn(l.registry[k := LUse(l.queue.value, c.session.id)], c.session.(reservedKey := None))
    else c
  }

  /** `set_reservation(value)`: as in the package's server, but only one
      key can be held. */
  function LSetReservation(c: LConn, value: string): (r: LConn)
    ensures r.session.id == c.session.id
    ensures r.session.reservation <==> value == "1" || value == "true"
    ensures r.session.reservation == c.session.reservation ==> r == c
    ensures r.session.reservation != c.session.reservation ==> r == LUseKey(c).(session := LUseKey(c).session.(reservation := r.session.reservation))
  {
    var mode := value == "1" || value == "true";
    if mode != c.session.reservation then
      var u := LUseKey(c);
      u.(session := u.session.(reservation := mode))
    else c
  }

  /** `_return_data`: the reserved entry goes back to its queue's enqueue
      end. The queue must lend to this connection (`KeyError` otherwise). */
  function LClose(c: LConn): (r: LConn)
    requires Truthy(c.session.reservedKey) ==>
      c.session.reservedKey.value in c.registry && c.session.id in c.registry[c.session.reservedKey.value].borrowing
    ensures !Truthy(c.session.reservedKey) ==> r == c
    ensures Truthy(c.session.reservedKey) ==>
      var k := c.session.reservedKey.value;
      r.session.reservedKey == None && k in r.registry &&
      r.registry[k].ready == [c.registry[k].borrowing[c.session.id]] + c.registry[k].ready &&
      c.session.id !in r.registry[k].borrowing
  {
    if Truthy(c.session.reservedKey) then
      var k := c.session.reservedKey.value;
      LConn(c.registry[k := Return(c.registry[k], c.session.id)], c.session.(reservedKey := None))
    else c
  }

  /** The guard of the `assert` inside the `dequeue` that `handle_get`
      reaches. */
  predicate LGetSafe(c: LConn, key: string, now: int) {
    c.session.reservation && !Truthy(c.session.reservedKey) && c.session.id != "" &&
    key in c.registry && c.session.id in c.registry[key].borrowing ==>
      AllExpired(c.registry[key].ready, now)
  }

  /** `handle_get(key, *args)`: only the first key counts. A reservation-mode
      connection that holds a key gets `END` and nothing moves. Otherwise
      the queue is created if missing and one `dequeue` runs, lending to
      this connection in reservation mode; any entry it returns is sent,
      even an empty one. */
  function LHandleGet(c: LConn, key: string, now: int): (r: LAnswer)
    requires LGetSafe(c, key, now)
    ensures c.session.reservation && Truthy(c.session.reservedKey) ==> r == LAnswer(c, [End])
    ensures r.replies == [End] || (|r.replies| == 2 && r.replies[0].Value? && r.replies[0].key == key && r.replies[1] == End)
    ensures r.conn.session.id == c.session.id && r.conn.session.reservation == c.session.reservation
    ensures forall k :: k in c.registry && k != key ==> k in r.conn.registry && r.conn.registry[k] == c.registry[k]
    ensures !(c.session.reservation && Truthy(c.session.reservedKey)) ==>
      var q := LGetQueue(c.registry, key, true).queue.value;
      var d := Dequeue(q, if c.session.reservation then Some(c.session.id) else None, now);
      key in r.conn.registry && r.conn.registry[key] == d.queue &&
      (|r.replies| == 2 <==> d.item.Some?) &&
      (d.item.Some? ==> r.replies[0].data == d.item.value.data) &&
      r.conn.session.reservedKey == (if c.session.reservation && d.item.Some? then Some(key) else c.session.reservedKey)
  {
    if c.session.reservation && Truthy(c.session.reservedKey) then LAnswer(c, [End])
    else
      var prot := if c.session.reservation then Some(c.session.id) else None;
      var l := LGetQueue(c.registry, key, true);
      var d := Dequeue(l.queue.value, prot, now);
      var reg := l.registry[key := d.queue];
      match d.item
      case None => LAnswer(LConn(reg, c.session), [End])
      case Some(it) =>
        var s := if c.session.reservation then c.session.(reservedKey := Some(key)) else c.session;
        LAnswer(LConn(reg, s), [Value(key, it.data), End])
  }

  /** `handle_set` once the payload is read. */
  function LHandleSet(c: LConn, key: string, exptime: int, data: string, now: int): (r: LAnswer)
    ensures r.replies == [Stored]
    ensures key == CONFIG_KEY ==> r.conn == LSetReservation(c, data)
    ensures key != CONFIG_KEY ==>
      r.conn.session == c.session && key in r.conn.registry &&
      (forall k :: k in c.registry && k != key ==> k in r.conn.registry && r.conn.registry[k] == c.registry[k]) &&
      r.conn.registry[key].ready == [Item(StoredTimeout(exptime, now), data)] + LGetQueue(c.registry, key, true).queue.value.ready &&
      r.conn.registry[key].borrowing == LGetQueue(c.registry, key, true).queue.value.borrowing
  {
    if key == CONFIG_KEY then LAnswer(LSetReservation(c, data), [Stored])
    else
      var l := LGetQueue(c.registry, key, true);
      LAnswer(c.(registry := l.registry[key := Enqueue(l.queue.value, StoredTimeout(exptime, now), data)]), [Stored])
  }

  /** `handle_delete(key)`: `DELETED` exactly when the key is the reserved
      one, which is then acknowledged and released. */
  function LHandleDelete(c: LConn, key: string): (r: LAnswer)
    ensures r.replies == [Deleted] || r.replies == [NotDeleted]
    ensures r.replies == [Deleted] <==> c.session.reservedKey == Some(key)
    ensures r.replies == [NotDeleted] ==> r.conn == c
    ensures r.replies == [Deleted] && key != "" ==>
      r.conn.session.reservedKey == None && key in r.conn.registry && c.session.id !in r.conn.registry[key].borrowing
  {
    if c.session.reservedKey == Some(key) then LAnswer(LUseKey(c), [Deleted])
    else LAnswer(c, [NotDeleted])
  }

  // ---------------------------------------------------------------------
  // Invariant

  lemma LInvGetSafe(c: LConn, key: string, now: int)
    requires LInv(c)
    ensures LGetSafe(c, key, now)
  {
  }

  /** `handle_get` keeps the invariant for any key a command line can carry
      (split tokens are never empty). */
  lemma LHandleGetInv(c: LConn, key: string, now: int)
    requires LInv(c) && key != ""
    ensures LInv(LHandleGet(c, key, now).conn)
  {
    var pid := c.session.id;
    if !(c.session.reservation && Truthy(c.session.reservedKey)) {
      assert c.session.reservedKey == None;
      var q := LGetQueue(c.registry, key, true).queue.value;
      assert pid !in q.borrowing;
    }
  }

  lemma LHandleSetInv(c: LConn, key: string, exptime: int, data: string, now: int)
    requires LInv(c)
    ensures LInv(LHandleSet(c, key, exptime, data, now).conn)
  {
  }

  lemma LHandleDeleteInv(c: LConn, key: string)
    requires LInv(c)
    ensures LInv(LHandleDelete(c, key).conn)
  {
  }

  /** At most one reservation: under the invariant, no two queues lend to
      the same connection, and while a key is held `handle_get` on any key
      replies only `END` and touches nothing. */
  lemma AtMostOneReservation(c: LConn, k1: string, k2: string, key: string, now: int)
    requires LInv(c)
    requires k1 in c.registry && c.session.id in c.registry[k1].borrowing
    requires k2 in c.registry && c.session.id in c.registry[k2].borrowing
    ensures k1 == k2
    ensures c.session.reservation && LHandleGet(c, key, now).conn != c ==> c.session.reservedKey == None
  {
  }

  /** Closing under the invariant gives the held entry back and leaves no
      queue lending to this connection. */
  lemma LCloseReturns(c: LConn)
    requires LInv(c)
    ensures forall k :: k in LClose(c).registry ==> c.session.id !in LClose(c).registry[k].borrowing
    ensures LClose(c).session.reservedKey == None
  {
  }
}
