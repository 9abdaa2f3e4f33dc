/** The `redqueue` package's `QueueFactory`: the registry from key to queue,
    and restoring a key's queue from its journal file as `scan_journals`
    does it. `scan_journals` is the intended start-up restore; the package
    server calls a `scan_logs` that `QueueFactory` does not define. */
module Factory {
  import opened Common
  import opened Queues
  import opened Journal
  import opened Recovery

  /** `queue_collection`. */
  type Registry = map<string, Queue>

  /** Every queue is filed under its own key. */
  predicate Keyed(f: Registry) {
    forall k :: k in f ==> f[k].key == k
  }

  /** What `get_queue` leaves behind and returns. */
  datatype Lookup = Lookup(registry: Registry, queue: Option<Queue>)

  /** `get_queue(key, auto_create)`: a missing key gets a fresh queue only
      when `auto_create` is set; otherwise the lookup yields `None`. */
  function GetQueue(f: Registry, key: string, autoCreate: bool): (r: Lookup)
    ensures r.queue.Some? <==> key in f || autoCreate
    ensures r.registry.Keys == if key in f || !autoCreate then f.Keys else f.Keys + {key}
    ensures forall k :: k in f ==> k in r.registry && r.registry[k] == f[k]
    ensures r.queue.Some? ==> key in r.registry && r.queue.value == r.registry[key]
    ensures key !in f && autoCreate ==> r.queue == Some(NewQueue(key))
  {
    if key !in f && autoCreate then Lookup(f[key := NewQueue(key)], Some(NewQueue(key)))
    else Lookup(f, if key in f then Some(f[key]) else None)
  }

  /** The same key always yields the same queue: a second lookup, with or
      without auto-create, returns what the first returned and changes
      nothing. */
  lemma GetQueueStable(f: Registry, key: string, first: bool, second: bool)
    requires GetQueue(f, key, first).queue.Some?
    ensures GetQueue(GetQueue(f, key, first).registry, key, second) ==
      Lookup(GetQueue(f, key, first).registry, GetQueue(f, key, first).queue)
  {
  }

  /** Without auto-create a missing key yields nothing and the registry is
      left exactly as it was. */
  lemma GetQueueNoCreate(f: Registry, key: string)
    requires key !in f
    ensures GetQueue(f, key, false) == Lookup(f, None)
  {
  }

  /** Lookups keep every queue filed under its own key, and hand out the
      queue of the key asked for. */
  lemma GetQueueKeyed(f: Registry, key: string, autoCreate: bool)
    requires Keyed(f)
    ensures Keyed(GetQueue(f, key, autoCreate).registry)
    ensures GetQueue(f, key, autoCreate).queue.Some? ==> GetQueue(f, key, autoCreate).queue.value.key == key
  {
  }

  /** `g` files everything `f` files, unchanged, and `key` in addition. */
  predicate AddsKey(f: Registry, g: Registry, key: string) {
    g.Keys == f.Keys + {key} && forall k :: k in f ==> g[k] == f[k]
  }

  /** `get_queue(key)` on a missing key, with the loaded queue `q` then
      standing under that key. */
  function File(f: Registry, key: string, q: Queue): (g: Registry)
    requires key !in f
    ensures AddsKey(f, g, key) && g[key] == q
  {
    var l := GetQueue(f, key, true);
    assert l.registry.Keys == f.Keys + {key};
    l.registry[key := q]
  }

  /** `scan_journals` for one journal file: `get_queue` for its key, then
      `load_from_journal` into that queue, which keeps the file open for
      appending. No line is written for the entries folded back. */
  ghost function Recover(f: Registry, key: string, text: string): (r: Result<Registry, LoadError>)
    requires key !in f
    ensures r.Ok? <==> Restore(key, text).Ok?
    ensures r.Ok? ==> AddsKey(f, r.value, key) && r.value[key] == Restore(key, text).value
  {
    match Restore(key, text)
    case Err(e) => Err(e)
    case Ok(q) => Ok(File(f, key, q))
  }

  /** A recovered queue is filed under its key, and it is in step with its
      journal file exactly when the replay ended with nothing lent: any
      entry folded back is still recorded as lent in the reopened file. */
  lemma RecoverConsistent(f: Registry, key: string, text: string)
    requires key !in f && Recover(f, key, text).Ok? && Keyed(f)
    ensures Keyed(Recover(f, key, text).value)
    ensures Replay(Empty, Parse(text).records).Ok?
    ensures Consistent(Recover(f, key, text).value[key]) <==> Replay(Empty, Parse(text).records).value.lent == map[]
  {
    var st := Replay(Empty, Parse(text).records).value;
    if st.lent == map[] {
      assert st.lent.Keys == {};
      assert Enumerate(st.lent.Keys) == [];
    }
  }

  /** Corrected `scan_journals` for one file: as `Recover`, but the
      fold-back is journaled as `R id` lines. */
  ghost function RecoverJournaled(f: Registry, key: string, text: string): (r: Result<Registry, LoadError>)
    requires key !in f
    ensures r.Ok? <==> Restore(key, text).Ok?
    ensures r.Ok? ==> AddsKey(f, r.value, key) && r.value[key].ready == Restore(key, text).value.ready
  {
    match RestoreJournaled(key, text)
    case Err(e) => Err(e)
    case Ok(q) => Ok(File(f, key, q))
  }

  /** A queue recovered by the corrected restore is filed under its key and
      its journal file describes it, whatever was lent in the file. */
  lemma RecoverJournaledConsistent(f: Registry, key: string, text: string)
    requires key !in f && RecoverJournaled(f, key, text).Ok? && Keyed(f)
    ensures Keyed(RecoverJournaled(f, key, text).value)
    ensures Consistent(RecoverJournaled(f, key, text).value[key])
  {
    RestoreJournaledConsistent(key, text);
  }
}
