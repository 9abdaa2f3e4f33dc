/** One client connection of the `redqueue` package's memcache front end
    (`MemcacheProtocol`): a reservation flag, the keys whose entries this
    connection holds, and the get / gets / set / delete commands and the
    close callback acting on the shared queue registry. Commands arrive
    already split into their arguments. */
module Sessions {
  import opened Common
  import opened Queues
  import opened Factory

  /** `protocol_id`, `reservation` and `resved_keys`. */
  datatype Session = Session(id: string, reservation: bool, reserved: set<string>)

  /** The registry every connection shares, and this connection's session. */
  datatype Conn = Conn(registry: Registry, session: Session)

  datatype Reply =
    | Value(key: string, data: string) // `VALUE key 0 len` followed by the payload
    | End                              // `END`
    | Stored                           // `STORED`
    | Deleted                          // `DELETED`
    | NotDeleted                       // `NOT_DELETED`
    | ClientError                      // `CLIENT_ERROR bad command line format`

  /** What a command leaves behind and writes to the client. */
  datatype Answer = Answer(conn: Conn, replies: seq<Reply>)

  /** The key whose `set` switches reservation mode instead of queueing. */
  const CONFIG_KEY: string := "config:reserv"

  /** A freshly accepted connection. */
  function NewSession(id: string): (s: Session)
    ensures !s.reservation && s.reserved == {} && s.id == id
  {
    Session(id, false, {})
  }

  /** The session invariant: a key is reserved exactly when its queue holds
      an entry lent to this connection, and only reservation mode reserves. */
  predicate Inv(c: Conn) {
    var pid := c.session.id;
    (forall k :: k in c.session.reserved ==> k in c.registry && pid in c.registry[k].lent) &&
    (forall k :: k in c.registry && pid in c.registry[k].lent ==> k in c.session.reserved) &&
    (!c.session.reservation ==> c.session.reserved == {})
  }

  // ---------------------------------------------------------------------
  // Acknowledging and giving back every reserved key

  /** `get_queue(k).use(pid)`: the queue of `k`, created if missing, with
      the entry lent to `pid` acknowledged. */
  function Ack(f: Registry, k: string, pid: string): (q: Queue)
    ensures pid !in q.lent && q.ready == GetQueue(f, k, true).queue.value.ready
    ensures k in f ==> q.lent == f[k].lent - {pid}
    ensures k !in f ==> q.lent == map[]
  {
    Use(GetQueue(f, k, true).queue.value, pid)
  }

  /** `get_queue(k).use(pid)` for every `k` in `keys`, the keys being
      distinct queues. */
  function UseAll(f: Registry, keys: set<string>, pid: string): (r: Registry)
    ensures r.Keys == f.Keys + keys
    ensures forall k :: k in keys ==> r[k] == Ack(f, k, pid)
    ensures forall k :: k in f && k !in keys ==> r[k] == f[k]
  {
    map k | k in f.Keys + keys :: if k in keys then Ack(f, k, pid) else f[k]
  }

  /** The same acknowledgements made one key at a time in `order`, as the
      source's loop over the key set does. */
  function UseInOrder(f: Registry, order: seq<string>, pid: string): Registry
    decreases |order|
  {
    if order == [] then f
    else UseInOrder(f[order[0] := Ack(f, order[0], pid)], order[1..], pid)
  }

  lemma AckOther(f: Registry, k0: string, q0: Queue, k: string, pid: string)
    requires k != k0
    ensures Ack(f[k0 := q0], k, pid) == Ack(f, k, pid)
  {
    assert GetQueue(f[k0 := q0], k, true).queue == GetQueue(f, k, true).queue;
  }

  /** Acknowledging one key first and then the others is acknowledging
      them all. */
  lemma UseAllStep(f: Registry, k0: string, keys: set<string>, pid: string)
    requires k0 !in keys
    ensures UseAll(f[k0 := Ack(f, k0, pid)], keys, pid) == UseAll(f, keys + {k0}, pid)
  {
    var a, b := UseAll(f[k0 := Ack(f, k0, pid)], keys, pid), UseAll(f, keys + {k0}, pid);
    UseAllStepKeys(f, k0, keys, pid);
    forall k | k in b ensures a[k] == b[k] {
      UseAllAt(f, k0, keys, pid, k);
    }
    SameRegistry(a, b);
  }

  lemma UseAllStepKeys(f: Registry, k0: string, keys: set<string>, pid: string)
    ensures UseAll(f[k0 := Ack(f, k0, pid)], keys, pid).Keys == UseAll(f, keys + {k0}, pid).Keys
  {
  }

  /** Registries with the same keys and the same queue under each key are equal. */
  lemma SameRegistry(a: Registry, b: Registry)
    requires a.Keys == b.Keys && forall k :: k in b ==> a[k] == b[k]
    ensures a == b
  {
  }

  lemma UseAllAt(f: Registry, k0: string, keys: set<string>, pid: string, k: string)
    requires k0 !in keys && k in UseAll(f, keys + {k0}, pid)
    ensures k in UseAll(f[k0 := Ack(f, k0, pid)], keys, pid)
    ensures UseAll(f[k0 := Ack(f, k0, pid)], keys, pid)[k] == UseAll(f, keys + {k0}, pid)[k]
  {
    if k != k0 && k in keys {
      AckOther(f, k0, Ack(f, k0, pid), k, pid);
    }
  }

  /** A distinct sequence splits into its head and a distinct tail. */
  lemma DistinctCons(order: seq<string>)
    requires Distinct(order) && order != []
    ensures Distinct(order[1..]) && order[0] !in order[1..]
    ensures (set k | k in order) == (set k | k in order[1..]) + {order[0]}
  {
    var rest := order[1..];
    assert forall i :: 0 <= i < |rest| ==> rest[i] == order[i + 1] && rest[i] != order[0];
  }

  /** The order in which a set is visited does not matter: acknowledging
      the keys one at a time in any order gives `UseAll`. */
  lemma {:induction false} UseInAnyOrder(f: Registry, order: seq<string>, pid: string)
    requires Distinct(order)
    ensures UseInOrder(f, order, pid) == UseAll(f, (set k | k in order), pid)
    decreases |order|
  {
    if order == [] {
      assert (set k | k in order) == {};
      assert UseAll(f, {}, pid) == f;
    } else {
      DistinctCons(order);
      UseInAnyOrder(f[order[0] := Ack(f, order[0], pid)], order[1..], pid);
      UseAllStep(f, order[0], (set k | k in order[1..]), pid);
    }
  }

  /** `get_queue(k).give_back(pid)` for every `k` in `keys`. Each of those
      queues must hold an entry lent to `pid` (`KeyError` otherwise). */
  function GiveBackAll(f: Registry, keys: set<string>, pid: string): (r: Registry)
    requires forall k :: k in keys ==> k in f && pid in f[k].lent
    ensures r.Keys == f.Keys
    ensures forall k :: k in keys ==> r[k].ready == [f[k].lent[pid]] + f[k].ready && r[k].lent == f[k].lent - {pid}
    ensures forall k :: k in f && k !in keys ==> r[k] == f[k]
  {
    map k | k in f.Keys :: if k in keys then GiveBack(f[k], pid) else f[k]
  }

  /** The same give-backs made one key at a time in `order`. */
  function GiveBackInOrder(f: Registry, order: seq<string>, pid: string): Registry
    requires Distinct(order) && forall i :: 0 <= i < |order| ==> order[i] in f && pid in f[order[i]].lent
    decreases |order|
  {
    if order == [] then f
    else
      var f' := f[order[0] := GiveBack(f[order[0]], pid)];
      assert forall i :: 0 <= i < |order[1..]| ==> order[1..][i] == order[i + 1] && order[i + 1] != order[0];
      GiveBackInOrder(f', order[1..], pid)
  }

  lemma GiveBackAllStep(f: Registry, k0: string, keys: set<string>, pid: string)
    requires k0 !in keys && k0 in f && pid in f[k0].lent
    requires forall k :: k in keys ==> k in f && pid in f[k].lent
    ensures GiveBackAll(f[k0 := GiveBack(f[k0], pid)], keys, pid) == GiveBackAll(f, keys + {k0}, pid)
  {
    var a, b := GiveBackAll(f[k0 := GiveBack(f[k0], pid)], keys, pid), GiveBackAll(f, keys + {k0}, pid);
    assert a.Keys == b.Keys;
    forall k | k in a.Keys ensures a[k] == b[k] {
    }
  }

  /** Giving back in any order gives `GiveBackAll`. */
  lemma {:induction false} GiveBackInAnyOrder(f: Registry, order: seq<string>, pid: string)
    requires Distinct(order) && forall i :: 0 <= i < |order| ==> order[i] in f && pid in f[order[i]].lent
    ensures GiveBackInOrder(f, order, pid) == GiveBackAll(f, (set k | k in order), pid)
    decreases |order|
  {
    if order == [] {
      assert (set k | k in order) == {};
      assert GiveBackAll(f, {}, pid) == f;
    } else {
      DistinctCons(order);
      var f' := f[order[0] := GiveBack(f[order[0]], pid)];
      assert forall i :: 0 <= i < |order[1..]| ==> order[1..][i] == order[i + 1];
      GiveBackInAnyOrder(f', order[1..], pid);
      GiveBackAllStep(f, order[0], (set k | k in order[1..]), pid);
    }
  }

  // ---------------------------------------------------------------------
  // Session operations

  /** `set_reservation(value)`: the mode becomes true exactly for `'1'` and
      `'true'`; only when the mode actually changes are all reserved keys
      acknowledged and forgotten. */
  function SetReservation(c: Conn, value: string): (r: Conn)
    ensures r.session.id == c.session.id
    ensures r.session.reservation <==> value == "1" || value == "true"
    ensures r.session.reservation == c.session.reservation ==> r == c
    ensures r.session.reservation != c.session.reservation ==>
      r.session.reserved == {} && r.registry == UseAll(c.registry, c.session.reserved, c.session.id)
  {
    var mode := value == "1" || value == "true";
    if mode != c.session.reservation then
      Conn(UseAll(c.registry, c.session.reserved, c.session.id), Session(c.session.id, mode, {}))
    else c
  }

  /** `use_key(key)`: with no key, acknowledge every reserved key and forget
      them all; with a key, only that one, and only if it is reserved. */
  function UseKey(c: Conn, key: Option<string>): (r: Conn)
    ensures r.session.id == c.session.id && r.session.reservation == c.session.reservation
    ensures key.None? ==> r.session.reserved == {} && r.registry == UseAll(c.registry, c.session.reserved, c.session.id)
    ensures key.Some? && key.value !in c.session.reserved ==> r == c
    ensures key.Some? && key.value in c.session.reserved ==>
      r.session.reserved == c.session.reserved - {key.value} &&
      r.registry == UseAll(c.registry, {key.value}, c.session.id)
  {
    match key
    case None => c.(registry := UseAll(c.registry, c.session.reserved, c.session.id), session := c.session.(reserved := {}))
    case Some(k) =>
      if k in c.session.reserved then
        c.(registry := UseAll(c.registry, {k}, c.session.id), session := c.session.(reserved := c.session.reserved - {k}))
      else c
  }

  /** `_return_data`, the close callback: every reserved entry goes back to
      the left end of its queue and nothing stays reserved. */
  function Close(c: Conn): (r: Conn)
    requires forall k :: k in c.session.reserved ==> k in c.registry && c.session.id in c.registry[k].lent
    ensures r.session.reserved == {} && r.session.id == c.session.id && r.registry.Keys == c.registry.Keys
    ensures forall k :: k in c.session.reserved ==>
      r.registry[k].ready == [c.registry[k].lent[c.session.id]] + c.registry[k].ready &&
      c.session.id !in r.registry[k].lent
    ensures forall k :: k in c.registry && k !in c.session.reserved ==> r.registry[k] == c.registry[k]
  {
    Conn(GiveBackAll(c.registry, c.session.reserved, c.session.id), c.session.(reserved := {}))
  }

  /** The source's own guard for `_get_data`: the `reserve` it reaches does
      not lend to an id that already holds an entry of that queue. */
  predicate GetSafe(c: Conn, key: string, now: int) {
    key in c.registry && !(c.session.reservation && key in c.session.reserved) ==>
      (c.session.id in c.registry[key].lent ==> AllExpired(c.registry[key].ready, now))
  }

  datatype Fetched = Fetched(conn: Conn, data: Option<string>)

  function PayloadOf(it: Option<Item>): (d: Option<string>)
    ensures d.Some? <==> it.Some?
    ensures it.Some? ==> d.value == it.value.data
  {
    match it
    case None => None
    case Some(i) => Some(i.data)
  }

  /** `_get_data(key)`: nothing when this reservation-mode connection
      already holds the key or no queue exists (no auto-create); otherwise a
      `reserve` in reservation mode, recording the key, or a `take` in plain
      mode. */
  function GetData(c: Conn, key: string, now: int): (r: Fetched)
    requires GetSafe(c, key, now)
    ensures (c.session.reservation && key in c.session.reserved) || key !in c.registry ==> r == Fetched(c, None)
    ensures r.conn.registry.Keys == c.registry.Keys
    ensures forall k :: k in c.registry && k != key ==> r.conn.registry[k] == c.registry[k]
    ensures r.conn.session.id == c.session.id && r.conn.session.reservation == c.session.reservation
    ensures r.conn.session.reserved == if c.session.reservation && r.data.Some? then c.session.reserved + {key} else c.session.reserved
    ensures key in c.registry && !(c.session.reservation && key in c.session.reserved) ==>
      if c.session.reservation then
        r.data == PayloadOf(Reserve(c.registry[key], c.session.id, now).item) &&
        r.conn.registry[key] == Reserve(c.registry[key], c.session.id, now).queue
      else
        r.data == PayloadOf(Take(c.registry[key], c.session.id, now).item) &&
        r.conn.registry[key] == Take(c.registry[key], c.session.id, now).queue
  {
    if c.session.reservation && key in c.session.reserved then Fetched(c, None)
    else
      match GetQueue(c.registry, key, false).queue
      case None => Fetched(c, None)
      case Some(q) =>
        if c.session.reservation then
          var res := Reserve(q, c.session.id, now);
          var s := if res.item.Some? then c.session.(reserved := c.session.reserved + {key}) else c.session;
          Fetched(Conn(c.registry[key := res.queue], s), PayloadOf(res.item))
        else
          var res := Take(q, c.session.id, now);
          Fetched(c.(registry := c.registry[key := res.queue]), PayloadOf(res.item))
  }

  lemma InvGetSafe(c: Conn, key: string, now: int)
    requires Inv(c)
    ensures GetSafe(c, key, now)
  {
  }

  /** `_get_data` keeps the session invariant: in reservation mode a key is
      recorded exactly when the `reserve` on it lent an entry. */
  lemma GetDataInv(c: Conn, key: string, now: int)
    requires Inv(c)
    ensures Inv(GetData(c, key, now).conn)
  {
    var r := GetData(c, key, now);
    var pid := c.session.id;
    if key in c.registry && !(c.session.reservation && key in c.session.reserved) {
      assert pid !in c.registry[key].lent;
    }
  }

  /** The per-key part of `handle_get`: every key in order, a `VALUE` line
      for each one whose payload is non-empty. */
  function GetEach(c: Conn, keys: seq<string>, now: int): (r: Answer)
    requires Inv(c)
    ensures Inv(r.conn) && r.conn.session.id == c.session.id && r.conn.session.reservation == c.session.reservation
    ensures r.conn.registry.Keys == c.registry.Keys
    ensures |r.replies| <= |keys|
    ensures forall i :: 0 <= i < |r.replies| ==> r.replies[i].Value? && r.replies[i].key in keys && r.replies[i].data != ""
    decreases |keys|
  {
    if keys == [] then Answer(c, [])
    else
      InvGetSafe(c, keys[0], now);
      GetDataInv(c, keys[0], now);
      var f := GetData(c, keys[0], now);
      var rest := GetEach(f.conn, keys[1..], now);
      var line := if Truthy(f.data) then [Value(keys[0], f.data.value)] else [];
      ValueLines(line, rest.replies, keys);
      Answer(rest.conn, line + rest.replies)
  }

  /** Non-empty `VALUE` lines for the first key, then for the other keys. */
  lemma ValueLines(line: seq<Reply>, rest: seq<Reply>, keys: seq<string>)
    requires keys != [] && |line| <= 1
    requires forall i :: 0 <= i < |line| ==> line[i].Value? && line[i].key == keys[0] && line[i].data != ""
    requires forall i :: 0 <= i < |rest| ==> rest[i].Value? && rest[i].key in keys[1..] && rest[i].data != ""
    ensures forall i :: 0 <= i < |line + rest| ==>
      (line + rest)[i].Value? && (line + rest)[i].key in keys && (line + rest)[i].data != ""
  {
    forall i | 0 <= i < |line + rest|
      ensures (line + rest)[i].Value? && (line + rest)[i].key in keys && (line + rest)[i].data != ""
    {
      if i >= |line| {
        assert (line + rest)[i] == rest[i - |line|];
        assert rest[i - |line|].key in keys[1..];
      }
    }
  }

  /** Positions, within `keys`, of the keys whose `_get_data` yields a
      non-empty payload when the keys are visited in order. */
  function Hits(c: Conn, keys: seq<string>, now: int): (pos: seq<nat>)
    requires Inv(c)
    ensures |pos| <= |keys|
    ensures forall i :: 0 <= i < |pos| ==> pos[i] < |keys|
    ensures forall i, j :: 0 <= i < j < |pos| ==> pos[i] < pos[j]
    decreases |keys|
  {
    if keys == [] then []
    else
      InvGetSafe(c, keys[0], now);
      GetDataInv(c, keys[0], now);
      var f := GetData(c, keys[0], now);
      var rest := Hits(f.conn, keys[1..], now);
      ShiftPositions(rest, |keys|, Truthy(f.data));
      if Truthy(f.data) then [0] + ShiftUp(rest) else ShiftUp(rest)
  }

  /** Increasing positions in the tail of a sequence, shifted by one and
      optionally preceded by 0, are increasing positions in the sequence. */
  lemma ShiftPositions(rest: seq<nat>, n: nat, hit: bool)
    requires n > 0 && |rest| <= n - 1
    requires forall i :: 0 <= i < |rest| ==> rest[i] < n - 1
    requires forall i, j :: 0 <= i < j < |rest| ==> rest[i] < rest[j]
    ensures var pos := if hit then [0] + ShiftUp(rest) else ShiftUp(rest);
      |pos| <= n && (forall i :: 0 <= i < |pos| ==> pos[i] < n) &&
      forall i, j :: 0 <= i < j < |pos| ==> pos[i] < pos[j]
  {
  }

  /** Every position one further on. */
  function ShiftUp(ps: seq<nat>): (r: seq<nat>)
    ensures |r| == |ps| && forall i :: 0 <= i < |ps| ==> r[i] == ps[i] + 1
  {
    seq(|ps|, i requires 0 <= i < |ps| => ps[i] + 1)
  }

  /** The `VALUE` lines of `get` name the keys at the hit positions, one
      line per hit, in request order. */
  lemma {:induction false} GetEachHits(c: Conn, keys: seq<string>, now: int)
    requires Inv(c)
    ensures |GetEach(c, keys, now).replies| == |Hits(c, keys, now)|
    ensures forall i :: 0 <= i < |Hits(c, keys, now)| ==>
      GetEach(c, keys, now).replies[i].Value? && GetEach(c, keys, now).replies[i].key == keys[Hits(c, keys, now)[i]]
    decreases |keys|
  {
    if keys != [] {
      InvGetSafe(c, keys[0], now);
      GetDataInv(c, keys[0], now);
      var f := GetData(c, keys[0], now);
      GetEachHits(f.conn, keys[1..], now);
      HitsShift(GetEach(f.conn, keys[1..], now).replies, Hits(f.conn, keys[1..], now), keys, Truthy(f.data), f.data);
    }
  }

  /** The inductive step of `GetEachHits`: prepending the first key's line
      and shifting the other positions by one keeps them aligned. */
  lemma HitsShift(replies: seq<Reply>, rest: seq<nat>, keys: seq<string>, hit: bool, data: Option<string>)
    requires keys != [] && (hit ==> data.Some?)
    requires |replies| == |rest|
    requires forall i :: 0 <= i < |rest| ==> rest[i] < |keys| - 1 && replies[i].Value? && replies[i].key == keys[1..][rest[i]]
    ensures var pos := if hit then [0] + ShiftUp(rest) else ShiftUp(rest);
      var line := if hit then [Value(keys[0], data.value)] else [];
      |line + replies| == |pos| && forall i :: 0 <= i < |pos| ==> (line + replies)[i].Value? && (line + replies)[i].key == keys[pos[i]]
  {
  }

  /** `handle_get(*keys)`: every key in order, a `VALUE` for each non-empty
      payload, then `END`. */
  function HandleGet(c: Conn, keys: seq<string>, now: int): (r: Answer)
    requires Inv(c)
    ensures Inv(r.conn) && r.conn.session.id == c.session.id && r.conn.session.reservation == c.session.reservation
    ensures r.conn.registry.Keys == c.registry.Keys
    ensures 1 <= |r.replies| <= |keys| + 1 && r.replies[|r.replies| - 1] == End
    ensures forall i :: 0 <= i < |r.replies| - 1 ==> r.replies[i].Value? && r.replies[i].key in keys && r.replies[i].data != ""
    ensures |r.replies| == |Hits(c, keys, now)| + 1
    ensures forall i :: 0 <= i < |r.replies| - 1 ==> r.replies[i].key == keys[Hits(c, keys, now)[i]]
  {
    var a := GetEach(c, keys, now);
    GetEachHits(c, keys, now);
    Answer(a.conn, a.replies + [End])
  }

  /** `handle_get` of `[k] + ks` runs `_get_data(k)` first, writes its
      payload as a `VALUE` line when it is non-empty, and then handles `ks`
      on the connection that call left. */
  lemma HandleGetStep(c: Conn, k: string, ks: seq<string>, now: int)
    requires Inv(c)
    ensures GetSafe(c, k, now) && Inv(GetData(c, k, now).conn)
    ensures var f := GetData(c, k, now);
      var rest := HandleGet(f.conn, ks, now);
      HandleGet(c, [k] + ks, now) ==
        Answer(rest.conn, (if Truthy(f.data) then [Value(k, f.data.value)] else []) + rest.replies)
  {
    InvGetSafe(c, k, now);
    GetDataInv(c, k, now);
    var keys := [k] + ks;
    assert keys[0] == k && keys[1..] == ks;
  }

  /** `handle_gets(*keys)`, a poll: keys in order until the first one whose
      payload is non-empty, one `VALUE` for it, then `END`. */
  function HandleGets(c: Conn, keys: seq<string>, now: int): (r: Answer)
    requires Inv(c)
    ensures Inv(r.conn) && r.conn.session.id == c.session.id && r.conn.session.reservation == c.session.reservation
    ensures r.conn.registry.Keys == c.registry.Keys
    ensures |r.replies| == 1 || |r.replies| == 2
    ensures r.replies[|r.replies| - 1] == End
    ensures |r.replies| == 2 ==> r.replies[0].Value? && r.replies[0].key in keys && r.replies[0].data != ""
    decreases |keys|
  {
    if keys == [] then Answer(c, [End])
    else
      InvGetSafe(c, keys[0], now);
      GetDataInv(c, keys[0], now);
      var f := GetData(c, keys[0], now);
      if Truthy(f.data) then Answer(f.conn, [Value(keys[0], f.data.value), End])
      else HandleGets(f.conn, keys[1..], now)
  }

  /** How many keys `handle_gets` looks at before it stops. */
  function GetsVisited(c: Conn, keys: seq<string>, now: int): (n: nat)
    requires Inv(c)
    ensures n <= |keys|
    decreases |keys|
  {
    if keys == [] then 0
    else
      InvGetSafe(c, keys[0], now);
      GetDataInv(c, keys[0], now);
      var f := GetData(c, keys[0], now);
      if Truthy(f.data) then 1 else 1 + GetsVisited(f.conn, keys[1..], now)
  }

  /** `handle_gets` is `handle_get` cut short: it does exactly what
      `handle_get` does on the keys it visits, and it stops early only
      after a `VALUE`. */
  lemma {:induction false} GetsIsCutGet(c: Conn, keys: seq<string>, now: int)
    requires Inv(c)
    ensures HandleGets(c, keys, now) == HandleGet(c, keys[..GetsVisited(c, keys, now)], now)
    ensures GetsVisited(c, keys, now) < |keys| ==> |HandleGets(c, keys, now).replies| == 2
    decreases |keys|
  {
    if keys == [] {
      assert keys[..0] == [];
    } else {
      InvGetSafe(c, keys[0], now);
      GetDataInv(c, keys[0], now);
      var f := GetData(c, keys[0], now);
      if Truthy(f.data) {
        GetsStopsHere(c, keys, now);
      } else {
        GetsIsCutGet(f.conn, keys[1..], now);
        GetsGoesOn(c, keys, now, f.conn, GetsVisited(f.conn, keys[1..], now));
      }
    }
  }

  lemma GetsStopsHere(c: Conn, keys: seq<string>, now: int)
    requires Inv(c) && keys != [] && Truthy(GetData(c, keys[0], now).data)
    ensures GetsVisited(c, keys, now) == 1
    ensures HandleGets(c, keys, now) == HandleGet(c, keys[..1], now)
  {
    assert keys[..1] == [keys[0]];
    GetOneKey(c, keys[0], now);
  }

  lemma GetsGoesOn(c: Conn, keys: seq<string>, now: int, g: Conn, m: nat)
    requires Inv(c) && keys != [] && !Truthy(GetData(c, keys[0], now).data)
    requires g == GetData(c, keys[0], now).conn && Inv(g)
    requires m == GetsVisited(g, keys[1..], now)
    requires HandleGets(g, keys[1..], now) == HandleGet(g, keys[1..][..m], now)
    ensures GetsVisited(c, keys, now) == 1 + m
    ensures HandleGets(c, keys, now) == HandleGet(c, keys[..m + 1], now)
  {
    PrefixParts(keys, m);
    GetsSkips(c, keys, now);
    GetSkips(c, keys[..m + 1], now);
  }

  lemma PrefixParts(keys: seq<string>, m: nat)
    requires m < |keys|
    ensures keys[..m + 1] != [] && keys[..m + 1][0] == keys[0] && keys[..m + 1][1..] == keys[1..][..m]
  {
  }

  /** A key whose payload is empty or missing adds no line. */
  lemma GetEachSkips(c: Conn, keys: seq<string>, now: int)
    requires Inv(c) && keys != [] && !Truthy(GetData(c, keys[0], now).data)
    requires Inv(GetData(c, keys[0], now).conn)
    ensures GetEach(c, keys, now) == GetEach(GetData(c, keys[0], now).conn, keys[1..], now)
  {
  }

  lemma GetsSkips(c: Conn, keys: seq<string>, now: int)
    requires Inv(c) && keys != [] && !Truthy(GetData(c, keys[0], now).data)
    requires Inv(GetData(c, keys[0], now).conn)
    ensures GetsVisited(c, keys, now) == 1 + GetsVisited(GetData(c, keys[0], now).conn, keys[1..], now)
    ensures HandleGets(c, keys, now) == HandleGets(GetData(c, keys[0], now).conn, keys[1..], now)
  {
  }

  lemma GetSkips(c: Conn, keys: seq<string>, now: int)
    requires Inv(c) && keys != [] && !Truthy(GetData(c, keys[0], now).data)
    requires Inv(GetData(c, keys[0], now).conn)
    ensures HandleGet(c, keys, now) == HandleGet(GetData(c, keys[0], now).conn, keys[1..], now)
  {
    GetEachSkips(c, keys, now);
  }

  /** The expiry a `set` stores: a positive relative `exptime` becomes an
      absolute time, anything else is kept as is (never expires). */
  function StoredTimeout(exptime: int, now: int): (t: int)
    ensures exptime > 0 ==> t > now
    ensures exptime <= 0 ==> t == exptime
  {
    if exptime > 0 then now + exptime else exptime
  }

  /** A `set` with a positive `exptime` stores an entry that expires exactly
      once the clock has passed `now + exptime`; with zero or a negative
      `exptime` the entry never expires. The clock never reads negative. */
  lemma StoredExpiry(exptime: int, now: int, data: string, later: int)
    requires now >= 0
    ensures Expired(Item(StoredTimeout(exptime, now), data), later) <==> exptime > 0 && later > now + exptime
  {
  }

  /** `handle_set(key, flags, exptime, bytes)` once the payload is read:
      `config:reserv` only switches the mode; any other key gives the
      payload to that key's queue, created if missing. Both reply `STORED`. */
  function HandleSet(c: Conn, key: string, exptime: int, data: string, now: int): (r: Answer)
    ensures r.replies == [Stored]
    ensures key == CONFIG_KEY ==> r.conn == SetReservation(c, data)
    ensures key != CONFIG_KEY ==>
      r.conn.session == c.session &&
      r.conn.registry.Keys == c.registry.Keys + {key} &&
      (forall k :: k in c.registry && k != key ==> r.conn.registry[k] == c.registry[k]) &&
      r.conn.registry[key] == Give(GetQueue(c.registry, key, true).queue.value, StoredTimeout(exptime, now), data)
  {
    if key == CONFIG_KEY then Answer(SetReservation(c, data), [Stored])
    else
      var l := GetQueue(c.registry, key, true);
      Answer(c.(registry := l.registry[key := Give(l.queue.value, StoredTimeout(exptime, now), data)]), [Stored])
  }

  /** `handle_delete(key)`: acknowledge and forget the key when this
      connection holds it; otherwise change nothing. */
  function HandleDelete(c: Conn, key: string): (r: Answer)
    ensures r.replies == [Deleted] || r.replies == [NotDeleted]
    ensures r.replies == [Deleted] <==> key in c.session.reserved
    ensures key !in c.session.reserved ==> r.conn == c
    ensures key in c.session.reserved ==>
      r.conn.session.reserved == c.session.reserved - {key} &&
      key in r.conn.registry && c.session.id !in r.conn.registry[key].lent
  {
    if key in c.session.reserved then Answer(UseKey(c, Some(key)), [Deleted])
    else Answer(c, [NotDeleted])
  }

  // ---------------------------------------------------------------------
  // Invariant preservation

  lemma UseAllInv(c: Conn, keys: set<string>)
    requires Inv(c) && keys <= c.session.reserved
    ensures Inv(Conn(UseAll(c.registry, keys, c.session.id), c.session.(reserved := c.session.reserved - keys)))
  {
  }

  lemma SetReservationInv(c: Conn, value: string)
    requires Inv(c)
    ensures Inv(SetReservation(c, value))
  {
    if (value == "1" || value == "true") != c.session.reservation {
      UseAllInv(c, c.session.reserved);
      assert c.session.reserved - c.session.reserved == {};
    }
  }

  lemma HandleSetInv(c: Conn, key: string, exptime: int, data: string, now: int)
    requires Inv(c)
    ensures Inv(HandleSet(c, key, exptime, data, now).conn)
  {
    if key == CONFIG_KEY {
      SetReservationInv(c, data);
    }
  }

  lemma HandleDeleteInv(c: Conn, key: string)
    requires Inv(c)
    ensures Inv(HandleDelete(c, key).conn)
  {
    if key in c.session.reserved {
      UseAllInv(c, {key});
    }
  }

  /** Closing a connection that keeps the invariant returns every entry it
      held: afterwards no queue lends anything to it. */
  lemma CloseReturnsAll(c: Conn)
    requires Inv(c)
    ensures Inv(Close(c))
    ensures forall k :: k in Close(c).registry ==> c.session.id !in Close(c).registry[k].lent
  {
  }

  // ---------------------------------------------------------------------
  // Commands

  /** A command line after splitting; `exptime` and the payload of `set`
      already read, the payload without its trailing line break. */
  datatype Command =
    | GetCmd(keys: seq<string>)
    | GetsCmd(keys: seq<string>)
    | SetCmd(key: string, exptime: int, data: string)
    | DeleteCmd(key: string)
    | UnknownCmd

  /** The route table, with `handle_unknown` for any other verb. */
  function Dispatch(c: Conn, cmd: Command, now: int): (r: Answer)
    requires Inv(c)
    ensures Inv(r.conn) && r.conn.session.id == c.session.id && |r.replies| >= 1
    ensures cmd.UnknownCmd? ==> r == Answer(c, [ClientError])
  {
    match cmd
    case GetCmd(keys) => HandleGet(c, keys, now)
    case GetsCmd(keys) => HandleGets(c, keys, now)
    case SetCmd(key, exptime, data) => HandleSetInv(c, key, exptime, data, now); HandleSet(c, key, exptime, data, now)
    case DeleteCmd(key) => HandleDeleteInv(c, key); HandleDelete(c, key)
    case UnknownCmd => Answer(c, [ClientError])
  }

  /** A connection's life: the commands in order, each with the clock
      reading at its arrival; the replies are written in order. */
  function Serve(c: Conn, cmds: seq<(Command, int)>): (r: Answer)
    requires Inv(c)
    ensures Inv(r.conn) && r.conn.session.id == c.session.id
    ensures |r.replies| >= |cmds|
    decreases |cmds|
  {
    if cmds == [] then Answer(c, [])
    else
      var a := Dispatch(c, cmds[0].0, cmds[0].1);
      var rest := Serve(a.conn, cmds[1..]);
      Answer(rest.conn, a.replies + rest.replies)
  }

  /** A new connection on a registry that lends it nothing starts in the
      invariant, so after any sequence of commands a reserved key is one
      whose queue lends to this connection and vice versa, and closing
      returns every held entry. */
  lemma SessionLifetime(f: Registry, id: string, cmds: seq<(Command, int)>)
    requires forall k :: k in f ==> id !in f[k].lent
    ensures Inv(Conn(f, NewSession(id)))
    ensures var c := Serve(Conn(f, NewSession(id)), cmds).conn;
      Inv(Close(c)) && Close(c).session.reserved == {}
  {
    var c := Serve(Conn(f, NewSession(id)), cmds).conn;
    CloseReturnsAll(c);
  }

  // ---------------------------------------------------------------------
  // Observable behaviour

  /** A `set` followed by a plain-mode `get` on an otherwise empty queue
      hands the payload back unchanged. */
  lemma SetThenGet(c: Conn, key: string, exptime: int, data: string, now: int, later: int)
    requires Inv(c) && !c.session.reservation && key != CONFIG_KEY
    requires data != "" && exptime <= 0
    requires key !in c.registry || c.registry[key].ready == []
    ensures Inv(HandleSet(c, key, exptime, data, now).conn)
    ensures HandleGet(HandleSet(c, key, exptime, data, now).conn, [key], later).replies == [Value(key, data), End]
  {
    HandleSetInv(c, key, exptime, data, now);
    var c1 := HandleSet(c, key, exptime, data, now).conn;
    assert c1.registry[key].ready == [Item(exptime, data)];
    TakeOnlyEntry(c1, key, later);
    GetOneKey(c1, key, later);
  }

  /** A plain-mode `_get_data` on a queue holding one never-expiring entry
      returns that entry's payload. */
  lemma TakeOnlyEntry(c: Conn, key: string, now: int)
    requires Inv(c) && !c.session.reservation && key in c.registry
    requires |c.registry[key].ready| == 1 && c.registry[key].ready[0].timeout <= 0
    ensures GetSafe(c, key, now)
    ensures GetData(c, key, now).data == Some(c.registry[key].ready[0].data)
  {
    var q := c.registry[key];
    assert !Expired(q.ready[|q.ready| - 1], now);
    assert Reserve(q, c.session.id, now).item == Some(q.ready[0]);
  }

  /** `handle_get` of one key whose payload is non-empty answers that
      payload and `END`. */
  lemma GetOneKey(c: Conn, key: string, now: int)
    requires Inv(c) && GetSafe(c, key, now) && Truthy(GetData(c, key, now).data)
    ensures HandleGet(c, [key], now) == Answer(GetData(c, key, now).conn, [Value(key, GetData(c, key, now).data.value), End])
  {
    GetDataInv(c, key, now);
    var f := GetData(c, key, now);
    assert [key][1..] == [];
    assert GetEach(c, [key], now) == Answer(f.conn, [Value(key, f.data.value)]);
  }

  /** An entry with an empty payload is consumed (and in reservation mode
      its key recorded) but produces no `VALUE` line. */
  lemma EmptyPayloadConsumed(c: Conn, key: string, now: int)
    requires Inv(c) && key in c.registry && !(c.session.reservation && key in c.session.reserved)
    requires c.registry[key].ready != [] && c.registry[key].ready[|c.registry[key].ready| - 1].data == ""
    requires !Expired(c.registry[key].ready[|c.registry[key].ready| - 1], now)
    ensures HandleGet(c, [key], now).replies == [End]
    ensures HandleGet(c, [key], now).conn.registry[key].ready == c.registry[key].ready[..|c.registry[key].ready| - 1]
    ensures c.session.reservation ==> key in HandleGet(c, [key], now).conn.session.reserved
  {
    InvGetSafe(c, key, now);
    GetDataInv(c, key, now);
    var f := GetData(c, key, now);
    assert f.data == Some("");
    assert [key][1..] == [];
    assert GetEach(c, [key], now) == Answer(f.conn, []);
    var q := c.registry[key];
    assert Take(q, c.session.id, now).queue.ready == Reserve(q, c.session.id, now).queue.ready;
  }

  // ---------------------------------------------------------------------
  // Other connections

  /** Every entry lent to some other connection stays exactly where it was,
      and no queue starts lending to another connection. */
  predicate OthersKept(a: Registry, b: Registry, pid: string) {
    (forall k :: k in a ==> k in b && b[k].lent - {pid} == a[k].lent - {pid}) &&
    (forall k :: k in b && k !in a ==> b[k].lent - {pid} == map[])
  }

  lemma OthersKeptTrans(a: Registry, b: Registry, c: Registry, pid: string)
    requires OthersKept(a, b, pid) && OthersKept(b, c, pid)
    ensures OthersKept(a, c, pid)
  {
  }

  lemma GetDataKeepsOthers(c: Conn, key: string, now: int)
    requires GetSafe(c, key, now)
    ensures OthersKept(c.registry, GetData(c, key, now).conn.registry, c.session.id)
  {
    var pid := c.session.id;
    if key in c.registry && !(c.session.reservation && key in c.session.reserved) {
      var q := c.registry[key];
      if c.session.reservation {
        var res := Reserve(q, pid, now);
        if res.item.Some? {
          assert res.queue.lent - {pid} == q.lent - {pid};
        }
      }
    }
  }

  lemma {:induction false} GetEachKeepsOthers(c: Conn, keys: seq<string>, now: int)
    requires Inv(c)
    ensures OthersKept(c.registry, GetEach(c, keys, now).conn.registry, c.session.id)
    decreases |keys|
  {
    if keys != [] {
      InvGetSafe(c, keys[0], now);
      GetDataInv(c, keys[0], now);
      var f := GetData(c, keys[0], now);
      GetDataKeepsOthers(c, keys[0], now);
      GetEachKeepsOthers(f.conn, keys[1..], now);
      OthersKeptTrans(c.registry, f.conn.registry, GetEach(c, keys, now).conn.registry, c.session.id);
    }
  }

  lemma {:induction false} GetsKeepsOthers(c: Conn, keys: seq<string>, now: int)
    requires Inv(c)
    ensures OthersKept(c.registry, HandleGets(c, keys, now).conn.registry, c.session.id)
  {
    GetsIsCutGet(c, keys, now);
    GetEachKeepsOthers(c, keys[..GetsVisited(c, keys, now)], now);
  }

  lemma UseAllKeepsOthers(f: Registry, keys: set<string>, pid: string)
    ensures OthersKept(f, UseAll(f, keys, pid), pid)
  {
    var r := UseAll(f, keys, pid);
    forall k | k in f
      ensures k in r && r[k].lent - {pid} == f[k].lent - {pid}
    {
      if k in keys {
        assert r[k] == Ack(f, k, pid);
      }
    }
    forall k | k in r && k !in f
      ensures r[k].lent - {pid} == map[]
    {
      assert r[k] == Ack(f, k, pid);
    }
  }

  lemma HandleSetKeepsOthers(c: Conn, key: string, exptime: int, data: string, now: int)
    ensures OthersKept(c.registry, HandleSet(c, key, exptime, data, now).conn.registry, c.session.id)
  {
    if key == CONFIG_KEY {
      UseAllKeepsOthers(c.registry, c.session.reserved, c.session.id);
    }
  }

  lemma CloseKeepsOthers(c: Conn)
    requires forall k :: k in c.session.reserved ==> k in c.registry && c.session.id in c.registry[k].lent
    ensures OthersKept(c.registry, Close(c).registry, c.session.id)
  {
  }

  /** A command on one connection never touches what other connections
      hold: their lent entries are all still there, unchanged. */
  lemma DispatchKeepsOthers(c: Conn, cmd: Command, now: int)
    requires Inv(c)
    ensures OthersKept(c.registry, Dispatch(c, cmd, now).conn.registry, c.session.id)
  {
    match cmd
    case GetCmd(keys) => GetEachKeepsOthers(c, keys, now);
    case GetsCmd(keys) => GetsKeepsOthers(c, keys, now);
    case SetCmd(key, exptime, data) => HandleSetKeepsOthers(c, key, exptime, data, now);
    case DeleteCmd(key) =>
      if key in c.session.reserved {
        UseAllKeepsOthers(c.registry, {key}, c.session.id);
      }
    case UnknownCmd =>
  }
}
