# redqueue queue engine in Dafny

redqueue is a message broker that speaks the memcache text protocol.

- `set <key>` enqueues a payload.
- `get <key>` dequeues one.
- `delete <key>` acknowledges an entry that a connection holds in reservation mode.
- Every queue change goes to an append-only journal file. Replaying those files rebuilds the queues; in the package this replay (`QueueFactory.scan_journals`) is never reached at start-up as written, see "## Left out".

The repository has two generations of the engine, and both are modelled:

- the `redqueue` package (`redqueue/queue.py`, `redqueue/server.py`): per key a deque, a table of entries lent to connection ids, and a journal that rotates when the queue is idle;
- the older single-file server (`redqueue.py`): the same deque with a `borrowing` table, a log file per key named by timestamp, plain-mode `G` lines, and one reserved key per connection.

## Model conventions

- A deque is a `seq<Item>`. Index 0 is Python's left end, where `appendleft` adds. The last element is the end `pop()` takes from.
- A journal file is a `seq<Record>`. Its size in bytes (`tell()`) is the length of its encoding, `Journal.EncodeAll`.
- Files that rotation renamed away are kept in `archived`.
- `time.time()` is an integer parameter `now`.
- The loaders visit dictionary values in an unspecified order. This is a ghost choice (`Recovery.Enumerate`), so the loaders are ghost functions and the lemmas hold for every visiting order.
- A Python exception becomes a precondition when it is a programming error the callers avoid. `KeyError` in `give_back` and the `assert` in `reserve` are modelled this way. It becomes an `Err` result when it depends on file contents, as a `U`/`R` line for an unknown id does.
- Live operations (`Give`, `Reserve`, `Use`, …) are pure functions from queue to queue.
- Each queue has a partner predicate: "the current journal replays to the live state" (`Recovery.Consistent`, `Legacy.LConsistent`). Lemmas prove which operations keep it.

Module layout:

| file | module | models |
|---|---|---|
| common.dfy | Common | entries, expiry rule, `Option`/`Result`, Python truthiness |
| journal.dfy | Journal | record encoding and the loaders' reading loop |
| queue.dfy | Queues | `Queue` / `ReliableQueue` in `redqueue/queue.py` |
| recovery.dfy | Recovery | `load_from_journal` and start-up restore |
| queue_laws.dfy | QueueLaws | FIFO, expiry, idempotence laws |
| runs.dfy | Runs | arbitrary interleavings of queue calls |
| factory.dfy | Factory | `QueueFactory.get_queue` and start-up restore of a key |
| sessions.dfy | Sessions | `MemcacheProtocol` in `redqueue/server.py` |
| legacy_queue.dfy | Legacy | `Queue` in `redqueue.py` |
| legacy_server.dfy | LegacyServer | `Server` and `Protocol` in `redqueue.py` |

## Model

| member | source | states |
|---|---|---|
| Journal.IntToStrRoundTrip | redqueue/queue.py:96-100 | the `%d` rendering of an `S` line's timeout and length reads back as the same integer through `int()` |
| Journal.Parse | redqueue/queue.py:72-103 | every record the reading loop yields carries ids that are whitespace-free tokens, as `split()` gives them |
| Journal.ParseEncodeAll | redqueue/queue.py:72-103 | reading back the encoding of any well-formed records gives those records and no error: the line format round-trips |
| Journal.ParseEncodeAllThen | redqueue.py:142-176 | a well-formed prefix is read record for record, whatever text follows it |
| Queues.NewQueue | redqueue/queue.py:20-24 | a new queue is empty, lends nothing and starts with an empty journal |
| Queues.RotateJournal | redqueue/queue.py:123-134 | the journal is archived and restarted exactly when nothing is queued or lent and the file has reached capacity; otherwise nothing changes |
| Queues.Give | redqueue/queue.py:37-40 | the entry enters at the left end; an `S` record is appended; nothing else changes |
| Queues.GiveBack | redqueue/queue.py:31-35 | the entry lent to the id re-enters at the left end; the id leaves the lent table; other loans are kept; an `R id` record is appended |
| Queues.Use | redqueue/queue.py:42-48 | the id leaves the lent table, with a `U id` record only if it held an entry; the journal may rotate only when the queue is then empty |
| Queues.Reserve | redqueue/queue.py:50-64 | pops from the right end with one `B id` per pop; every popped entry before the result is expired; the result is the first live entry and is lent to the id; `None` only when every entry had expired |
| Queues.Take | redqueue/queue.py:66-70 | hands out the same entry as `reserve` and leaves the same deque behind, but keeps the lent table as it was; when it hands out an entry the journal is `reserve`'s followed by `U id`, or empty when the queue rotates with nothing left; when it hands out nothing the queue is `reserve`'s |
| QueueLaws.TakeNDrains | redqueue/queue.py:50-70 | with nothing expired, successive `take` calls return the entries from the pop end inward and empty the deque |
| QueueLaws.Fifo | redqueue/queue.py:37-70 | entries given to an empty queue come back from successive `take` calls in the order given, and one more `take` returns nothing |
| QueueLaws.ReserveConserves | redqueue/queue.py:50-64 | `reserve` loses nothing live: the entries before it are the remaining deque, plus the lent entry, plus the dropped entries, which are all expired |
| QueueLaws.UseIdempotent | redqueue/queue.py:42-48 | acknowledging twice is the same as acknowledging once |
| QueueLaws.UseUnknownId | redqueue/queue.py:42-48 | `use` by an id holding nothing changes no entry and writes no line; at most the idle journal rotates |
| Recovery.Apply | redqueue/queue.py:79-100 | one journal line on the loader's state: `S` prepends; `B` moves the right-end entry into the table (no-op when empty); `U`/`R` fail exactly for an id not in the table; `R` puts the entry back at the left end |
| Recovery.FoldBack | redqueue/queue.py:104-105 | the still-lent entries are added at the left end in visiting order; the replayed deque stays intact behind them |
| Recovery.LoadFromJournal | redqueue/queue.py:72-107 | the load succeeds exactly when the file reads without error and the replay never meets an unknown id; the lent table ends empty and the journal is untouched |
| Recovery.Restore | redqueue/queue.py:150-160 | start-up restore of one key: the restored queue's journal is the file it read, since the same file is reopened for appending; nothing is lent |
| Recovery.NewQueueConsistent | redqueue/queue.py:142-147 | a newly created queue is in step with its journal |
| Recovery.GiveConsistent | redqueue/queue.py:37-40 | `give` keeps the journal replaying to the live state |
| Recovery.GiveBackConsistent | redqueue/queue.py:31-35 | `give_back` keeps the journal replaying to the live state |
| Recovery.UseConsistent | redqueue/queue.py:42-48 | `use`, including a rotation it triggers, keeps the journal replaying to the live state |
| Recovery.ReserveConsistent | redqueue/queue.py:50-64 | a `reserve` that lends an entry, after dropping any number of expired ones, or that finds the deque empty keeps the journal replaying to the live state |
| Recovery.ReplayBorrows | redqueue/queue.py:79-85 | replaying `m` lines `B id` pops `m` entries off the right end and leaves `id` lent the last of them |
| Recovery.TakeConsistent | redqueue/queue.py:66-70 | a `take` that hands out an entry, or finds the deque empty, keeps the journal replaying to the live state |
| Recovery.RotationSafe | redqueue/queue.py:126-134 | a due rotation loses nothing: the new journal is empty and so is the queue, and the old file is archived whole |
| Recovery.RestoreOfLiveJournal | redqueue/queue.py:72-107 | restoring from the file of a queue in step gives its deque with every lent entry folded back at the left end, and an empty lent table |
| Recovery.RestoreWithNothingLent | redqueue/queue.py:72-107 | with nothing lent, a restore reproduces the live deque exactly |
| Recovery.RestoreWithOneBorrower | redqueue/queue.py:104-106 | with one borrower, a restore gives exactly the deque that `give_back` by that borrower would give |
| Recovery.FoldBackMultiset | redqueue/queue.py:104-105 | folding back loses and invents nothing: as a multiset, the result is the deque plus the lent entries |
| Recovery.RestoreConserves | redqueue/queue.py:72-107 | a restore holds every queued and every lent entry of the live queue, each exactly once, with the queued ones in order behind the lent ones |
| Recovery.ExpiredEntryComesBack | redqueue/queue.py:55-61 | a `reserve` that drops the only entry, expired, and returns nothing leaves a `B id` line that is never acknowledged, so a restore brings that entry back |
| Recovery.ReplayReturns | redqueue/queue.py:90-94 | replaying an `R id` line for each of several distinct lent ids performs exactly the fold-back and empties those loans |
| Recovery.RestoreJournaled | redqueue/queue.py:104-106 | corrected restore: fails exactly when the restore fails, and otherwise gives the same deque with the fold-back written to the journal |
| Recovery.RestoreJournaledConsistent | redqueue/queue.py:104-106 | after the corrected restore, the journal replays to the live queue, so later operations keep it in step |
| Recovery.RestoreJournaledRoundTrip | redqueue/queue.py:72-107 | restoring again from the journal the corrected restore leaves reproduces the same queue |
| Recovery.StaleBorrowAfterRestore | redqueue/queue.py:104-106 | as written: after a restore that folded back a borrow, `give c` then `take` hands out `a`; the next restore brings `a` back and loses `c` |
| Runs.StepConsistent | redqueue/queue.py:31-70 | any single call with a token id and non-expiring entries keeps the journal in step |
| Runs.RunConsistent | redqueue/queue.py:31-70 | any completed run of such calls keeps the journal in step |
| Runs.RestoreAfterAnyRun | redqueue/queue.py:72-107 | after any such run from an empty queue, a restore gives the live deque with the lent entries folded back, and conserves every entry |
| Factory.GetQueue | redqueue/queue.py:142-148 | returns a queue exactly when the key exists or auto-create is on; creates a new empty queue only for a missing key with auto-create; never changes an existing queue |
| Factory.GetQueueStable | redqueue/queue.py:142-148 | a second lookup of the same key returns the same queue and changes nothing |
| Factory.GetQueueNoCreate | redqueue/queue.py:142-148 | without auto-create, a missing key gives `None` and an unchanged registry |
| Factory.GetQueueKeyed | redqueue/queue.py:142-148 | lookups keep every queue filed under its own key |
| Factory.Recover | redqueue/queue.py:150-160 | restoring one journal file at start-up succeeds exactly when the file loads, adds that key only, leaves every other queue as it was, and files the restored queue under the key |
| Factory.RecoverConsistent | redqueue/queue.py:150-160 | a recovered queue is filed under its key, and it is in step with its journal exactly when the replay ended with nothing lent |
| Factory.RecoverJournaled | redqueue/queue.py:104-106 | corrected start-up restore: succeeds exactly when the file loads, adds that key only, and gives the same deque as the restore as written |
| Factory.RecoverJournaledConsistent | redqueue/queue.py:104-106 | after the corrected restore the queue is in step with its journal whatever the file left lent |
| Sessions.NewSession | redqueue/server.py:46-57 | a new connection is in plain mode and holds no key |
| Sessions.UseAll | redqueue/server.py:68-71 | every given key's queue, created if missing, stops lending to this connection; the other queues are unchanged |
| Sessions.UseInAnyOrder | redqueue/server.py:68-71 | acknowledging the reserved keys one by one, in any order the set is visited, gives the same registry |
| Sessions.GiveBackAll | redqueue/server.py:77-78 | each reserved entry goes back to its queue's left end; the other queues are unchanged |
| Sessions.GiveBackInAnyOrder | redqueue/server.py:77-78 | giving back one key at a time in any visiting order gives the same registry |
| Sessions.SetReservation | redqueue/server.py:59-64 | reservation mode is on exactly for `1` and `true`; a change of mode acknowledges and forgets every reserved key; no change of mode changes nothing |
| Sessions.UseKey | redqueue/server.py:66-74 | with no key, every reserved key is acknowledged and forgotten; with a reserved key, that key alone; with any other key, nothing changes |
| Sessions.Close | redqueue/server.py:76-79 | closing gives back every reserved entry, forgets the keys and leaves the other queues alone |
| Sessions.GetData | redqueue/server.py:111-127 | nothing for a key already reserved in reservation mode or with no queue (none is created); otherwise the `reserve` or `take` result, and the key is recorded as reserved only when reservation mode got an entry |
| Sessions.GetDataInv | redqueue/server.py:111-127 | `_get_data` keeps "reserved keys are exactly the queues lending to this connection" |
| Sessions.HandleGet | redqueue/server.py:129-134 | one `VALUE` per hit, naming the key at that hit's position, hits in strictly increasing request positions, then `END`; the session invariant is kept |
| Sessions.Hits | redqueue/server.py:129-133 | the positions of the requested keys whose `_get_data` gives a non-empty payload are distinct, in range and strictly increasing |
| Sessions.GetEachHits | redqueue/server.py:129-133 | the `VALUE` lines, one per hit, name the keys at the hit positions in request order |
| Sessions.HandleGetStep | redqueue/server.py:129-134 | `get k ks` runs `_get_data(k)` first, writes `VALUE k` with that call's payload exactly when it is non-empty, then handles `ks` on the connection that call left |
| Sessions.HandleGets | redqueue/server.py:136-145 | at most one `VALUE`, for one of the requested keys, then `END` |
| Sessions.GetsIsCutGet | redqueue/server.py:136-145 | `gets` does exactly what `get` does on the keys up to and including the first that yields a payload, and nothing to the keys after it |
| Sessions.StoredTimeout | redqueue/server.py:96-98 | a positive `exptime` becomes an absolute time after `now`; zero or negative is stored as given |
| Sessions.StoredExpiry | redqueue/server.py:96-98 | an entry `set` with a positive `exptime` expires exactly once the clock passes `now + exptime`; with zero or negative it never expires |
| Sessions.HandleSet | redqueue/server.py:94-108 | always `STORED`; `config:reserv` sets the mode from the payload; any other key gets the payload at the left end of its queue, created if missing, and nothing else changes |
| Sessions.HandleDelete | redqueue/server.py:147-152 | `DELETED` exactly when the key is reserved by this connection, and that key is then acknowledged; otherwise `NOT_DELETED` and nothing changes |
| Sessions.SetReservationInv | redqueue/server.py:59-64 | switching the mode keeps the session invariant |
| Sessions.HandleSetInv | redqueue/server.py:94-108 | `set` keeps the session invariant |
| Sessions.HandleDeleteInv | redqueue/server.py:147-152 | `delete` keeps the session invariant |
| Sessions.CloseReturnsAll | redqueue/server.py:76-79 | after closing, no queue lends anything to this connection |
| Sessions.Dispatch | redqueue/server.py:84-92 | every command line gets at least one reply and keeps the invariant; an unknown verb gets `CLIENT_ERROR` and changes nothing |
| Sessions.Serve | redqueue/server.py:81-89 | a connection's command stream keeps the invariant, with at least one reply per command |
| Sessions.SessionLifetime | redqueue/server.py:46-57 | a new connection starts in the invariant, and after any commands and the close, no queue lends to it |
| Sessions.SetThenGet | redqueue/server.py:94-134 | a non-empty, non-expiring `set` followed by a plain `get` on an empty queue returns that payload |
| Sessions.EmptyPayloadConsumed | redqueue/server.py:124-133 | an entry with an empty payload is consumed by `get` but sends no `VALUE` line (in reservation mode the key is still recorded) |
| Sessions.DispatchKeepsOthers | redqueue/server.py:84-92 | no command of one connection touches an entry lent to another connection |
| Legacy.NewLQueue | redqueue.py:76-81 | a new queue is empty, borrows nothing and starts a new empty log |
| Legacy.RotateLog | redqueue.py:131-134 | the log restarts exactly when the deque and the borrowing table are empty and the file has reached one megabyte |
| Legacy.Enqueue | redqueue.py:106-113 | the entry enters at the left end and an `S` record is logged |
| Legacy.LUse | redqueue.py:115-118 | the id stops borrowing, with a `U id` record only if it borrowed; no rotation |
| Legacy.Return | redqueue.py:96-99 | the borrowed entry re-enters at the left end; an `R id` record is logged |
| Legacy.Dequeue | redqueue.py:120-140 | pops from the right end, skipping expired entries; the result is the first live entry, lent only for a non-empty id; `None` only when every entry had expired |
| Legacy.DequeueLog | redqueue.py:123-134 | `dequeue` logs one `G` line (no id) or `B id` line per pop, unless the pop that emptied the deque rotated the log, leaving it empty |
| Legacy.DequeueLends | redqueue.py:120-140 | a lending `dequeue` that hands out an entry and does not rotate keeps the deque left of that entry, lends the entry to the id, and logs one `B id` line per pop, expired pops included |
| Legacy.ReplayPops | redqueue.py:165-169 | replaying `m` more `G` lines after a log pops `m` entries off the right end of what the log replays to |
| Legacy.LApply | redqueue.py:148-174 | the loader's lines: `G` pops the right end (a no-op when empty); the other lines act as in the package's loader |
| Legacy.FoldOnto | redqueue.py:178-180 | leftover borrowed entries are appended at the right end, after the replayed deque |
| Legacy.LoadFromLog | redqueue.py:142-182 | loading succeeds exactly when the file reads without error and the replay meets no unknown id; the borrowing table ends empty |
| Legacy.EnqueueConsistent | redqueue.py:106-113 | `enqueue` keeps the log replaying to the live state |
| Legacy.LUseConsistent | redqueue.py:115-118 | `use` keeps the log replaying to the live state |
| Legacy.ReturnConsistent | redqueue.py:96-99 | `return_` keeps the log replaying to the live state |
| Legacy.PlainDequeueConsistent | redqueue.py:120-140 | a plain `dequeue` keeps the log in step, expired pops included, since every pop logs `G` |
| Legacy.LendDequeueConsistent | redqueue.py:120-140 | a lending `dequeue` that hands out an entry (after any number of expired pops) or finds the deque empty, and does not rotate, keeps the log in step |
| Legacy.LReplayBorrows | redqueue.py:146-154 | replaying `m` lines `B id` pops `m` entries off the right end and leaves `id` lent the last of them |
| Legacy.RotationDropsBorrow | redqueue.py:131-139 | a lending `dequeue` whose pops empty the deque with nothing borrowed and a full log rotates first; the new log is empty while the leftmost entry is borrowed, so the log is out of step |
| Legacy.LRestoreOfLiveLog | redqueue.py:142-182 | loading the log of a queue in step gives its deque with the borrowed entries appended at the right end |
| Legacy.PlainRunReplays | redqueue.py:106-140 | after any run of plain `enqueue`/`dequeue` calls, loading the log reproduces the live deque exactly |
| Legacy.RestoreLatest | redqueue.py:64-70 | as written: the restored queue has a new, empty log |
| Legacy.SecondRestartLoses | redqueue.py:64-70 | as written: after one restart the restored entry is live but its log is empty, so the next restart restores an empty queue |
| Legacy.SnapshotReplays | redqueue.py:169-174 | the `S` lines for a deque, replayed from nothing, rebuild exactly that deque |
| Legacy.RestoreLatestLogged | redqueue.py:64-70 | corrected restore: succeeds exactly when the restore does, with the same deque, and writes that deque to the new log |
| Legacy.RestoreLatestLoggedSurvives | redqueue.py:64-70 | after the corrected restore, the log is in step, and restarting from it gives the same deque again |
| Legacy.DequeueNDrains | redqueue.py:120-140 | with nothing expired, successive plain `dequeue` calls return the entries from the pop end inward |
| Legacy.DequeueNEmpties | redqueue.py:120-140 | with nothing expired, as many plain `dequeue` calls as entries empty the deque |
| Legacy.LegacyFifo | redqueue.py:106-140 | entries enqueued on an empty queue come back from plain `dequeue` calls in the order enqueued |
| LegacyServer.LGetQueue | redqueue.py:34-37 | returns a queue exactly when the key exists or auto-create is on; only a missing key gets a new empty queue; existing queues are unchanged |
| LegacyServer.SelectLatest | redqueue.py:52-62 | for every key among the log files, the chosen timestamp is one of that key's files and no file of the key is newer; no other key is chosen |
| LegacyServer.LUseKey | redqueue.py:204-207 | with a non-empty reserved key, its entry is acknowledged and the key is forgotten; otherwise nothing changes |
| LegacyServer.LSetReservation | redqueue.py:197-202 | reservation mode is on exactly for `1` and `true`; a change of mode acknowledges the reserved key; no change of mode changes nothing |
| LegacyServer.LClose | redqueue.py:209-212 | the reserved entry goes back to the left end of its queue and the key is forgotten |
| LegacyServer.LHandleGet | redqueue.py:246-261 | while a key is held in reservation mode: only `END`, nothing changes; otherwise one `dequeue` (lending in reservation mode) on the queue, created if missing; a `VALUE` line for any entry, even an empty one, and the key becomes the held key |
| LegacyServer.LHandleSet | redqueue.py:227-244 | always `STORED`; `config:reserv` sets the mode; any other key enqueues at the left end of its queue, created if missing |
| LegacyServer.LHandleDelete | redqueue.py:263-268 | `DELETED` exactly when the key is the held key, which is then acknowledged; otherwise `NOT_DELETED` and nothing changes |
| LegacyServer.LHandleGetInv | redqueue.py:246-261 | `get` keeps "a queue lends to this connection only under its held key, held only in reservation mode" |
| LegacyServer.LHandleSetInv | redqueue.py:227-244 | `set` keeps that invariant |
| LegacyServer.LHandleDeleteInv | redqueue.py:263-268 | `delete` keeps that invariant |
| LegacyServer.AtMostOneReservation | redqueue.py:246-249 | a connection borrows from at most one queue, and while it holds a key, `get` changes nothing |
| LegacyServer.LCloseReturns | redqueue.py:209-212 | after closing, no queue lends to the connection |

## Left out

- File I/O, `fsync`, `urllib` key quoting, file-name regular expressions and directory listing are not modelled. A journal is the sequence of its records, and `scan_journals`/`scan_logs` are modelled per key (`Factory.Recover`, `Legacy.RestoreLatest`, plus the timestamp choice `LegacyServer.SelectLatest`).
- Factory.Recover requires `key !in f`: distinct journal files are assumed to unquote to distinct keys. When two names unquote to the same key (`a+b.log` and `a%20b.log`), `scan_journals` replays the second file onto the queue the first one built (redqueue/queue.py:157-160); that is not modelled.
- Sockets, tornado streams, the line reader and `handle_unknown`'s argument splitting are not modelled. Commands arrive already split (`Sessions.Command`). A command line with the wrong number of arguments raises `TypeError` in the source; that is not modelled.
- Logging, including the warning when a deque grows beyond 128 entries, is not modelled.
- `redqueue/task.py` and the periodic task runner are not part of this model.
- The package's plain `Queue` class (non-reliable, with no-op `addjournal`/`rotate_journal`) is not modelled separately. Only `ReliableQueue` is modelled.
- `addjournal_sync` is not modelled: it writes the same bytes as `addjournal`. The `sync` option never reaches it anyway: `MemcacheServer.__init__` assigns `ReliableQueue.addlog = ReliableQueue.addlog_sync` (redqueue/server.py:26), and neither attribute exists, so `sync` raises `AttributeError`.
- The package server never replays its journals as written: `MemcacheServer.start` calls `self.queue_factory.scan_logs()` (redqueue/server.py:36), but `QueueFactory` defines only `scan_journals` (redqueue/queue.py:150), so start-up raises `AttributeError` before any journal is read. `Factory.Recover` and `Recovery.Restore` model `scan_journals` as the intended start-up restore, which nothing in the package calls. Start-up itself is not modelled.
- Python's float clock is not modelled. `time.time()` and `time.time() + exptime` become the integer `now` and `now + exptime`. Sessions.StoredExpiry requires a non-negative clock, as `time.time()` is.
- Rotation names the archived file by timestamp. In the older server, two rotations in the same second reopen the same file. Neither effect is modelled: archived files are a sequence, and every new log is a distinct empty file.
- Sessions.GetData: in plain mode the source calls `q.take()` with no id, which raises `TypeError` because `take` requires one. The model uses `take(protocol_id)`, which is how the periodic task calls it.
- The package's loader writes `journalging.error` for a line it does not recognise, a misspelled name that would raise `NameError`. The model skips such lines, as the older loader does. The package never writes such lines itself.
- Sessions.HandleGet, Sessions.HandleGets, Sessions.GetEach, Sessions.Dispatch and Sessions.Serve require the session invariant. Connection states where the `assert` inside `reserve` would fire are not modelled for these; `Sessions.GetData` states the exact condition.
- LegacyServer.LHandleGetInv requires a non-empty key. Keys there come from `str.split()` and are never empty.
- Recovery.ReserveConsistent and Recovery.TakeConsistent require that the call hands out an entry or finds the deque empty. When every entry has expired, `reserve` returns nothing but still writes a `B id` line per dropped entry. No line acknowledges them, so the replay keeps the last of them lent and a restore brings it back (`Recovery.ExpiredEntryComesBack`). When the same call goes on to lend a live entry, its last `B id` overwrites that slot and the journal stays in step. For this reason the replay equivalence in `Runs.RestoreAfterAnyRun` is stated for non-expiring entries and token ids.
- Legacy.LendDequeueConsistent covers a lending `dequeue` that lends or finds the deque empty, and does not rotate. A rotation just before lending puts the log out of step (`Legacy.RotationDropsBorrow`). So does one that pops only expired entries: its `B id` lines lend the last of them in the replay while the live table lends nothing.
- Failed loads are not modelled in detail. On an `assert` failure in the loader, the source leaves the queue partly loaded and the start-up scan stops. The model returns an `Err` and does not describe the partial state.

## Findings

| source | as written | input that shows it | evidently intended | confidence | as-written member | corrected member |
|---|---|---|---|---|---|---|
| redqueue/queue.py:104-106 | At start-up, entries still lent in the journal are put back on the deque, but no `R id` line is written. The reopened journal still records them as lent. | Journal `S 0 1 a`, `B 7`. Restart gives deque `[a]`. Then `give c`, and `take` by 8 hands out `a`. The journal now replays to deque `[a]`: `a` is delivered again and `c` is lost. | Write `R id` for each folded-back entry so the journal matches memory. | not executed | Recovery.StaleBorrowAfterRestore | Recovery.RestoreJournaled |
| redqueue.py:64-70 | `scan_logs` loads the newest log into `Queue(key)`, whose constructor has already opened a new, newer, empty log. The restored entries are never written to it. | Log `k-100.log` holding `S 0 1 a`. Restart gives deque `[a]` with empty log `k-200.log`. The next restart picks `k-200.log` and restores nothing. | Write the restored deque into the new log. | not executed | Legacy.SecondRestartLoses | Legacy.RestoreLatestLogged |
