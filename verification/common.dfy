/** Values shared by every part of the broker model: optional values and
    results, queue entries, their expiry rule and well-formed session ids. */
module Common {

  datatype Option<+T> = None | Some(value: T)

  datatype Result<+T, +E> = Ok(value: T) | Err(error: E)

  /** A queued entry: an absolute expiry time (0 or negative means "never")
      and an opaque payload. The source stores the pair `(timeout, data)`. */
  datatype Item = Item(timeout: int, data: string)

  /** Expiry rule checked when an entry is popped: `timeout > 0 and timeout < now`. */
  predicate Expired(it: Item, now: int) {
    it.timeout > 0 && it.timeout < now
  }

  /** The bytes Python's `str.split()` treats as separators. */
  predicate IsSpace(c: char) {
    c == ' ' || c == '\t' || c == '\n' || c == '\r' || c == '\U{000B}' || c == '\U{000C}'
  }

  /** A session id that survives the journal's `B id` / `U id` / `R id`
      lines: one non-empty whitespace-free token (protocol ids are decimal
      object ids in the source). */
  predicate ValidId(id: string) {
    |id| > 0 && forall i :: 0 <= i < |id| ==> !IsSpace(id[i])
  }

  /** Python truthiness of an optional string (`None` and `''` are false). */
  predicate Truthy(s: Option<string>) {
    s.Some? && s.value != ""
  }

  /** No entry of a deque expires at `now`. */
  predicate NoneExpired(ready: seq<Item>, now: int) {
    forall i :: 0 <= i < |ready| ==> !Expired(ready[i], now)
  }

  /** Every entry of a deque has expired at `now`. */
  predicate AllExpired(ready: seq<Item>, now: int) {
    forall i :: 0 <= i < |ready| ==> Expired(ready[i], now)
  }

  /** Every entry is of the never-expiring kind (timeout <= 0). */
  predicate NeverExpiring(ready: seq<Item>) {
    forall i :: 0 <= i < |ready| ==> ready[i].timeout <= 0
  }

  /** No element occurs twice. */
  predicate Distinct<T(==)>(s: seq<T>) {
    forall i, j :: 0 <= i < j < |s| ==> s[i] != s[j]
  }

  /** How many entries remain once a pop loop (`reserve`, `dequeue`) has
      dropped the expired entries at the right end: everything from the
      result on is expired, and the entry just before it, if any, is live. */
  function Skip(ready: seq<Item>, now: int): (k: nat)
    ensures k <= |ready|
    ensures forall i :: k <= i < |ready| ==> Expired(ready[i], now)
    ensures k > 0 ==> !Expired(ready[k - 1], now)
    decreases |ready|
  {
    if ready == [] then 0
    else if Expired(ready[|ready| - 1], now) then
      var k := Skip(ready[..|ready| - 1], now);
      assert forall i :: k <= i < |ready| - 1 ==> ready[..|ready| - 1][i] == ready[i];
      k
    else |ready|
  }

  /** What successive pops from the right end hand out until the sequence
      is empty: its elements from the right end inward. */
  function Pops<T>(s: seq<T>): (r: seq<Option<T>>)
    ensures |r| == |s| && forall i :: 0 <= i < |s| ==> r[i] == Some(s[|s| - 1 - i])
    decreases |s|
  {
    if s == [] then []
    else
      var init := s[..|s| - 1];
      var rest := Pops(init);
      assert forall j :: 0 <= j < |init| ==> rest[j] == Some(s[|s| - 2 - j]);
      [Some(s[|s| - 1])] + rest
  }

  /** Popping a sequence laid out in reverse hands out the original order. */
  lemma PopsReversed<T>(s: seq<T>, t: seq<T>)
    requires |s| == |t| && forall i :: 0 <= i < |t| ==> s[i] == t[|t| - 1 - i]
    ensures forall i :: 0 <= i < |t| ==> Pops(s)[i] == Some(t[i])
  {
    forall i | 0 <= i < |t| ensures Pops(s)[i] == Some(t[i]) {
      assert s[|s| - 1 - i] == t[i];
    }
  }
}
