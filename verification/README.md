# let-mil-go: a verified model of the transaction engine

let-mil-go is a sharded, multi-version transactional key-value store. A router gives
each transaction a name and a snapshot, talks to the shards that own its keys, and ends
it with two-phase commit. A shard keeps a version list per key, a lock table, a buffer
and a status per transaction, and a hybrid logical clock. A config server keeps the
registry of shards and a consistent-hash ring over them; a dependency analyser looks for
cycles between transaction templates.

This project models those parts in Dafny and proves what they promise. `dafny verify
dfyconfig.toml` checks all of it.

## How the model is built

| file | what it holds |
|---|---|
| `Basics`, `Hlc`, `Store`, `Locks`, `Buffer`, `TxStatus` | the components of a shard: each class has the source's fields and loops, and every method is proved equal to a function on values, whose laws are lemmas beside it |
| `Shard` | the shard object; `TxStart` .. `Commit` are proved equal to the step functions `OnStart` .. `OnCommit` on the shard's whole state |
| `Site`, `SiteInvariant` | one shard with the history it leaves: which commits it applied, what each pending write had seen, what each COMMIT vote covered; the invariant every step keeps |
| `Isolation` | what the order of applied commits says about lost updates and serializability |
| `Router` | the router object: names, commit times, the two phases; every method proved against a function or relation on what the router remembers |
| `Cluster`, `ClusterInvariant`, `Guarantees` | one router and any number of shards as a state machine whose messages may be lost, delayed and reordered; its invariant; the theorems about every reachable state and every run |
| `RouterSteps` | each call of the router object is an action or a legal run of actions of that state machine |
| `Shown`, `SystemOrder` | what the commits timed below a bound show; all shards together against one machine that runs the committed transactions one by one |
| `Reread`, `Answers` | every answer a transaction was given, recorded or not: when two of a key are the same, and when one is that of the serial run |
| `ShardLaws`, `PendingWrites` | what each call does to a shard, component by component, over the commits it has applied; what calls leave in the whole system and through runs |
| `Runs`, `Solo`, `TwoShards`, `Progress` | how runs are built; a run that commits, so the guarantees are about something |
| `WriteSkew`, `LostToDelete`, `LateCommit`, `Overlap` | reachable runs that show where the guarantees, and the premise on overlapping calls, end |
| `Dependency`, `Completeness`, `Unlisted` | the dependency graph, its edge builder and both depth-first searches; when the list of cycles is complete |
| `HashRing`, `RingLaws`, `Topology` | the hash ring, what its content and its routing depend on, and the topology manager |

The history in `Site` (`log`, `marks`, `pledges`) is read by no step; the theorems speak of it.

## Main results

1. **Commits never conflict.** `Shard.Commit` drops the store's version conflicts. In every
   reachable state a delivered commit meets none: each write is above every stored version
   of its key and is appended (`Guarantees.CommitNeverRefused`). The argument needs the
   exclusive locks from vote to commit, strict clock growth, the clock update before the
   locks go, and a commit time above every prepare time, all at once
   (`SiteInvariant.CommitKeeps`, `ClusterInvariant.NextKeeps`).
2. **Atomic commitment.** What the router object sends is exactly what appears on the network: after
   a decision every involved shard has the one commit time coming, after giving up an abort,
   and nobody anything else (`RouterSteps`). No shard commits unless every involved shard
   voted COMMIT; no two shards ever decide differently, in one state or in two states of a
   run; a promise stands, buffer, locks and prepare time, until the router's own outcome
   arrives; locks are held by promised transactions only, on exactly their write keys.
3. **Isolation at each shard, and its exact limits.** An SI or SER commit whose write saw a version
   loses no update to that key; in general it can lose one only to a delete, and does so if
   and only if there was one (`Isolation.LostUpdateIff`). A transaction keeps one record of
   each key it read, of its last read (internal/shard/component/buffer.go:73-82), and only
   records are checked. At each shard the commit order is a serial order for the SER
   transactions, over their records, if and only if each record stays current between vote
   and commit: a version that was found is not written, a missing key that is written ends
   up deleted again (`Isolation.SerialOrderIff`, in every reachable state
   `Guarantees.SerializableIff`). An earlier answer is the same as a later one if and only if
   the commits applied in between that are timed at or below the snapshot leave it current
   (`Reread.SameAnswerIff`). The record of a read is always its answer, found or missing
   (`PendingWrites.ReadIsRecorded`), what a transaction wrote last stays pending, and is what it
   reads, until its outcome (`WriteStays`), and a commit makes exactly that the newest version
   (`WriteIsInstalled`). All three limits are met by reachable runs of the whole system
   (`WriteSkew`, `LostToDelete`, `LateCommit.ReadsTwice`).
4. **All shards together.** There is one order of the committed transactions, by commit time. At a
   shard that has received the commits timed up to a snapshot, reading there shows the system
   after a prefix of that order, each transaction a single update of all shards, whatever
   other shards have received (`SystemOrder.SnapshotIsPrefix`). In every reachable state,
   delivered or not, that order is serial for the recorded SER reads of all shards if and
   only if, among the commits that a shard applied or has still to apply after a reader's
   vote, those timed below the reader's commit leave its records current
   (`SystemSerialIff`). Any answer given to any committed transaction, recorded or not, is that
   of the serial run if and only if the commits it had not seen and timed below the
   transaction's own leave it current (`Answers.AnswerServedIff`). Serial logs at the shards do
   not settle it: in a reachable run each shard is serial by itself, a reader saw a
   transaction at one shard and not at another, and no order of the two is serial
   (`LateCommit.SerialShardsNotSystem`). When times rise along every log they do
   (`SystemSerialIffShards`), and times rise when no vote-to-commit window of a shard holds
   another commit (`DisjointWindowsAreSystemSerial`). All writes of a transaction carry one
   timestamp no other transaction has, and a snapshot sees nothing that was decided after it
   was taken.
5. **Clock, store, locks.** The code is compared with a plain reference: `physNow << 16` or one
   more; a map from version to entry; two indexes of one lock relation.
6. **Cycle search.** `HasCycle` is exact. `FindCycles` lists real, duplicate-free cycles and cuts
   every reachable one, with exactly one list for each edge that leads back in the order in
   which the search finishes, but it does not list them all, whatever its comment says. On a graph
   whose edges lead to registered names it does in every order of its maps if and only if no
   two different cycles share an edge; otherwise some order always loses one
   (`Completeness.FullIffApart`). `Unlisted` builds a graph of which every possible result leaves
   one out. A graph built from templates is cyclic if and only if two templates share a key
   that one of them writes.
7. **Hash ring.** After any adds and removes the ring is a function of the shard set; a key goes to
   the shard with the nearest virtual node clockwise; replicas are the nearest shards in
   order. Removing a shard undoes adding it if and only if none of its virtual nodes falls on
   the position of another one (`RingLaws.RemoveUndoesAddIff`); every key is then sent where it
   went before, and otherwise not, unless there was no other shard (`RoutingRestoredIff`).

## Premises

The code does not enforce these; each is a guard of a step or a `requires` of a theorem.

- No hybrid clock wraps: a step that ticks or updates a clock happens only when
  `Hlc.TickFits` or `Hlc.UpdateFits` holds, which are the exact conditions for growth
  (`TickGrowsIff`, `UpdateGrowsIff`). `Update` computes its counter in 16 bits, so its
  overflow guard (internal/hlc/hlc.go:103-106) never acts.
- Stores start empty and are written by transactions only.
- Calls for one transaction never overlap: its reads, writes, commit and abort come one at a time,
  nothing but the commit call itself ends it once that call has begun, and no call reaches a
  shard after its caller gave up on it. The router does not check this: `Router.Commit` looks
  its context up once (internal/mulberry/mulberry.go:167-227), so a `Router.Abort` meanwhile
  is answered too, and two overlapping `Router.Commit` calls could send two commit times.
  `Overlap` shows what the first of these does: whenever some shard has not heard of a decision
  to commit (`OverlappingAbortDisagrees`), and already when all votes are in
  (`OverlappingAbortBeforeDecision`), it can make that shard abort and another one commit.
  Agreement, the one commit time and what follows from them rest on this premise.
- One router; the topology does not change while transactions run.
- For the ring: no two virtual nodes of the shards in play fall on one position.
  `RingLaws.CollisionLosesKeys` shows what happens otherwise, for any number of virtual nodes.

That a commit follows the shard's own COMMIT vote, that a promise stands until its outcome and
that names are unique is proved, not assumed. `Progress.ATransactionCommits` is a run that meets
every premise.

## Model

| member | source | states |
|---|---|---|
| `Hlc.Clock.Tick` | internal/hlc/hlc.go:48-67 | advances the clock in place to `TickTs` and returns it, in 64-bit arithmetic |
| `Hlc.Clock.Update` | internal/hlc/hlc.go:71-110 | advances the clock in place to `UpdateTs` and returns it, with the 16-bit counter and the dead overflow guard |
| `Hlc.TickIsNextTick` | internal/hlc/hlc.go:45-67 | for every word and time, a tick is "physNow << 16 if ahead, else ts + 1", cut to 64 bits |
| `Hlc.TickGrowsIff` | internal/hlc/hlc.go:48-67 | a tick exceeds the old clock if and only if `TickFits` |
| `Hlc.UpdateExact` | internal/hlc/hlc.go:71-110 | an update is "physNow << 16 if ahead of both, else max(ts, incoming) + 1", except that a full counter falls back to 0 in the same millisecond |
| `Hlc.UpdateGrowsIff` | internal/hlc/hlc.go:69-110 | an update exceeds the clock and the incoming stamp if and only if `UpdateFits` |
| `Hlc.KeepsUpWithTime` | internal/hlc/hlc.go:48-110 | a tick or update that fits leaves the clock at or past the physical time |
| `Hlc.UpdateCanGoBackwards` | internal/hlc/hlc.go:103-106 | the overflow guard never acts: some update goes below both of its inputs |
| `Hlc.RunsIncrease` | internal/hlc/hlc.go:48-110 | the readings of any run of ticks and updates that fit strictly increase |
| `Hlc.RunsStayClose` | internal/hlc/hlc.go:48-110 | after n events the clock is at most n above everything it was shown, wrapped or not |
| `Store.MVCCStore.FindVersionIndex` | internal/shard/component/store.go:192-203 | binary search: everything before the index is below the version, nothing after is |
| `Store.MVCCStore.Put` | internal/shard/component/store.go:38-63 | inserts in order; a version that exists is a conflict and changes nothing |
| `Store.MVCCStore.Delete` | internal/shard/component/store.go:113-137 | inserts a tombstone in order; a version that exists is a conflict and changes nothing |
| `Store.MVCCStore.Get` | internal/shard/component/store.go:67-88 | the snapshot read, with the wrap of version + 1 at the last 64-bit version |
| `Store.MVCCStore.GetLatest` | internal/shard/component/store.go:141-156 | the newest entry unless it is a tombstone |
| `Store.MVCCStore.GC` | internal/shard/component/store.go:174-188 | trims every list to its newest entry below `minVersion` and what follows; returns the total number of entries dropped over all keys |
| `Store.ContentDeterminesList` | internal/shard/component/store.go:38-63 | an ascending version list is determined by the map from version to entry it holds |
| `Store.InsertRefines` | internal/shard/component/store.go:38-63 | a write is the map update at a new version and nothing at an old one |
| `Store.PutKeepsOrder` | internal/shard/component/store.go:56-60 | every list stays strictly ascending |
| `Store.InsertAppends` | internal/shard/component/store.go:56-60 | a version above every stored one is appended |
| `Store.FloorIsGreatest` | internal/shard/component/store.go:65-88 | a read answers with the entry of the greatest version at or below the snapshot |
| `Store.WriteLeavesEarlierReads` | internal/shard/component/store.go:38-88 | a write at version w leaves every read below w unchanged |
| `Store.ReadAtMaxFindsNothing` | internal/shard/component/store.go:77-80 | the floor answers a read at every version except the last 64-bit one, which finds nothing |
| `Store.CollectedKeepsReads` | internal/shard/component/store.go:173-188 | a collection at `minVersion` keeps every read at or above it, every latest read and the order |
| `Store.CollectedDropsOld` | internal/shard/component/store.go:173-188 | a collection keeps exactly the entries that have no newer one below `minVersion`: all at or above it and one below it for each key |
| `Locks.LockManager.AcquireReadLock` | internal/shard/component/lock.go:59-84 | takes a read lock in both indexes in place, as `AcquireRead` says |
| `Locks.LockManager.AcquireWriteLock` | internal/shard/component/lock.go:87-124 | takes or upgrades to a write lock in both indexes in place, as `AcquireWrite` says |
| `Locks.LockManager.ReleaseAll` | internal/shard/component/lock.go:127-149 | the release loop over one transaction's keys, in any order, leaves `Release` |
| `Locks.LockManager.ReleaseOne` | internal/shard/component/lock.go:152-169 | releases one key of one transaction |
| `Locks.LockManager.GetOrCreateEntry` | internal/shard/component/lock.go:212-223 | creates a free entry where there is none |
| `Locks.AcquireReadLaw` | internal/shard/component/lock.go:58-84 | granted if and only if nobody else writes the key; what everybody holds afterwards |
| `Locks.AcquireWriteLaw` | internal/shard/component/lock.go:86-124 | granted if and only if nobody else holds the key; what everybody holds afterwards |
| `Locks.ReleaseLaw` | internal/shard/component/lock.go:126-149 | clears exactly one transaction and keeps the indexes in agreement |
| `Locks.ReleaseKeyLaw` | internal/shard/component/lock.go:151-169 | takes one key from one transaction and keeps the indexes in agreement |
| `Locks.AcquireAllLaw` | internal/shard/component/shard.go:207-212 | the locks of a prepare: all granted if and only if every key is free for the transaction; then it holds exactly those besides its old ones; nobody else is affected |
| `Locks.RunAgrees` | internal/shard/component/lock.go:59-169 | after any sequence of acquires and releases both indexes agree, a write lock has one holder and a free key none |
| `Buffer.TxBuffer.PutWrite` | internal/shard/component/buffer.go:41-51 | adds or replaces a pending write; a key keeps its first position |
| `Buffer.TxBuffer.PutDelete` | internal/shard/component/buffer.go:54-64 | adds or replaces a pending delete; a key keeps its first position |
| `Buffer.TxBuffer.RecordExternalRead` | internal/shard/component/buffer.go:73-82 | records a read unless the key is in the write set |
| `Buffer.TxBuffer.WriteOps` | internal/shard/component/buffer.go:90-96 | the pending writes in insertion order |
| `Buffer.TxBuffer.ReadRecords` | internal/shard/component/buffer.go:99-105 | each read record once, in any order |
| `Buffer.TxBufferManager.Start` | internal/shard/component/buffer.go:132-139 | a fresh empty buffer replaces whatever the transaction had |
| `Buffer.TxBufferManager.Get` | internal/shard/component/buffer.go:142-148 | the buffer of a transaction, if any |
| `Buffer.TxBufferManager.Put` | internal/shard/component/buffer.go:41-64 | a write through the buffer pointer changes one transaction's buffer and no other |
| `Buffer.TxBufferManager.NoteRead` | internal/shard/component/buffer.go:73-82 | a read record through the buffer pointer changes one transaction's buffer and no other |
| `Buffer.TxBufferManager.Remove` | internal/shard/component/buffer.go:151-156 | forgets one transaction's buffer |
| `Buffer.PutOpSound` | internal/shard/component/buffer.go:40-64 | the insertion order lists each written key once |
| `Buffer.PutOpLaw` | internal/shard/component/buffer.go:40-64 | a put changes one pending operation, keeps the order of the keys with a new one at the end, and leaves the records alone |
| `Buffer.RecordReadLaw` | internal/shard/component/buffer.go:73-82 | a read of a key outside the write set replaces the record of that key and nothing else |
| `TxStatus.TxStatusTable.Start` | internal/model/transaction.go:50-54 | registers a transaction as running |
| `TxStatus.TxStatusTable.Prepare` | internal/model/transaction.go:57-64 | marks a known transaction prepared with its time |
| `TxStatus.TxStatusTable.Commit` | internal/model/transaction.go:67-73 | marks a known transaction committed |
| `TxStatus.TxStatusTable.Abort` | internal/model/transaction.go:76-82 | marks a known transaction aborted |
| `Shard.ShardNode.TxStart` | internal/shard/component/shard.go:87-96 | refuses a transaction that has a buffer, otherwise gives it an empty one; nothing else changes |
| `Shard.ShardNode.TxRead` | internal/shard/component/shard.go:99-136 | own writes first, then the snapshot; records the read, ticks only when something was found |
| `Shard.ShardNode.TxWrite` | internal/shard/component/shard.go:139-162 | buffers the write with the latest version it saw and ticks |
| `Shard.ShardNode.TxDelete` | internal/shard/component/shard.go:165-186 | buffers the delete with the latest version it saw and ticks |
| `Shard.ShardNode.AcquireWriteLocks` | internal/shard/component/shard.go:207-212 | locks the keys in order and stops at the first refusal |
| `Shard.ShardNode.Validate` | internal/shard/component/shard.go:214-246 | the loops of the compare-and-set checks pass if and only if every write (SI, SER) and every read (SER) is still current |
| `Shard.ShardNode.Prepare` | internal/shard/component/shard.go:189-252 | all error and abort branches with the whole state each leaves |
| `Shard.ShardNode.Apply` | internal/shard/component/shard.go:261-267 | writes the pending operations to the store in order, ignoring its verdicts |
| `Shard.ShardNode.Commit` | internal/shard/component/shard.go:255-281 | apply, update the clock, release, mark; the whole state it leaves |
| `Shard.ShardNode.Abort` | internal/shard/component/shard.go:284-299 | release, mark, tick; the whole state it leaves |
| `Shard.ShardNode.CleanupTx` | internal/shard/component/shard.go:301-304 | drops the locks and the buffer of one transaction |
| `SiteInvariant.InstallAll` | internal/shard/component/shard.go:261-267 | operations above every version of their keys append one entry to each key they write and leave the other keys alone |
| `SiteInvariant.ReplayIsHistory` | internal/shard/component/shard.go:255-281 | the store a log of justified commits builds has, for each key, one entry for each commit that writes it, in commit order |
| `SiteInvariant.WritersIncrease` | internal/shard/component/shard.go:255-281 | two commits to one key carry increasing times |
| `SiteInvariant.StartKeeps` | internal/shard/component/shard.go:87-96 | starting a transaction keeps the shard invariant |
| `SiteInvariant.ReadKeeps` | internal/shard/component/shard.go:99-136 | a read keeps the shard invariant |
| `SiteInvariant.WriteKeeps` | internal/shard/component/shard.go:139-186 | a write or delete keeps the shard invariant; it adds to the buffer exactly that operation, with the latest version of that moment, and leaves the store alone |
| `SiteInvariant.PrepareKeeps` | internal/shard/component/shard.go:189-252 | a prepare keeps the shard invariant; a COMMIT vote is a promise, an ABORT vote, even after some locks were taken, leaves no lock and no buffer; nobody else notices |
| `SiteInvariant.VoteIff` | internal/shard/component/shard.go:189-252 | a shard votes COMMIT if and only if the transaction did something, nobody else holds a key it writes, at SI and SER every write saw what is still the latest version, and at SER every recorded read is still current; other levels have nothing more to meet |
| `ShardLaws.UnknownIsRefused` | internal/shard/component/shard.go:98-258 | a shard without a buffer of the transaction refuses its reads, writes, prepares and commits and stays as it is |
| `ShardLaws.StartLaw` | internal/shard/component/shard.go:87-96 | a start refuses a transaction that has a buffer and changes nothing; otherwise it adds an empty buffer and nothing else |
| `ShardLaws.ReadLaw` | internal/shard/component/shard.go:111-136 | a read of an unwritten key answers what its snapshot shows of the applied commits, records exactly that answer, ticks if it found something and changes nothing else |
| `ShardLaws.OwnReadLaw` | internal/shard/component/shard.go:105-112 | a read of a key the transaction wrote answers its own last write and changes nothing |
| `ShardLaws.WriteLaw` | internal/shard/component/shard.go:139-186 | a write or delete answers the latest visible version, buffers the operation with it at the first position of the key, ticks and changes nothing else |
| `ShardLaws.ReadsOwnWrite` | internal/shard/component/shard.go:105-162 | after a write its value is read at any snapshot, after a delete the key is missing, and the read changes nothing |
| `ShardLaws.CommitVoteLaw` | internal/shard/component/shard.go:199-252 | a COMMIT vote: its time is the next clock reading, the status is prepared at it, the locks are exactly the write keys, and nothing else changes |
| `ShardLaws.AbortVoteLaw` | internal/shard/component/shard.go:195-212 | an ABORT vote drops buffer and locks, ticks, and answers "no operations" exactly for an empty buffer |
| `ShardLaws.CommitLaw` | internal/shard/component/shard.go:255-281 | a commit installs each pending operation as one version at its time and leaves other keys alone, updates the clock, drops buffer and locks and marks the status |
| `ShardLaws.AbortLaw` | internal/shard/component/shard.go:284-304 | an abort, of a known transaction or not, drops buffer and locks, marks a known status, ticks and changes nothing else |
| `PendingWrites.ReadIsRecorded` | internal/shard/component/shard.go:114-136 | in every reachable state a read of an unwritten key leaves the buffer as before with exactly the answer, found or missing, as the record of the key; nothing else changes in the system |
| `PendingWrites.StartOutcome` | internal/mulberry/mulberry.go:261-284 | a start at a shard that has a buffer changes nothing and does not involve it; otherwise the shard gets an empty buffer and is involved if the answer arrives |
| `PendingWrites.WriteStays` | internal/shard/component/shard.go:139-186 | through every run without an outcome or ABORT vote at the shard the last operation written to a key stays in the buffer, with the version it saw, and is what the transaction reads |
| `PendingWrites.WriteIsInstalled` | internal/shard/component/shard.go:255-281 | a delivered commit makes the last operation written to a key its newest version, at the commit time and under the name of the transaction |
| `SiteInvariant.VoteStands` | internal/shard/component/shard.go:214-249 | a vote that passes the checks is justified by the commits applied so far |
| `SiteInvariant.CommitKeeps` | internal/shard/component/shard.go:255-281 | committing a promise at or above its prepare time keeps the shard invariant and every other promise |
| `SiteInvariant.CommitAppends` | internal/shard/component/shard.go:261-267 | none of the writes of such a commit meets a version conflict; each is appended |
| `SiteInvariant.AbortKeeps` | internal/shard/component/shard.go:284-304 | an abort keeps the shard invariant and frees the transaction |
| `SiteInvariant.PromisesDisjoint` | internal/shard/component/shard.go:207-212 | two promised transactions write different keys |
| `Isolation.NoLostUpdate` | internal/shard/component/shard.go:214-228 | an SI or SER commit whose write saw a nonzero version: nobody committed the key since that write was buffered |
| `Isolation.LostUpdateIff` | internal/shard/component/shard.go:214-228 | in general nobody committed the key since the write was buffered if and only if nobody committed a delete of it |
| `Isolation.OneCommitPerVersion` | internal/shard/component/shard.go:214-228 | an SI or SER commit whose write saw a nonzero version never follows another commit whose write saw the same one |
| `Isolation.VisibleIsSerial` | internal/shard/component/shard.go:255-281 | the latest visible values are those of a machine that applies each commit as one map update |
| `Isolation.ReadServedIff` | internal/shard/component/shard.go:230-246 | a read an SER transaction recorded (the last of the key), found or missing, is what the serial machine shows at its commit if and only if it stayed current since the vote |
| `Isolation.MissingAgainIff` | internal/shard/component/shard.go:230-246 | a key written between vote and commit reads as missing at the commit if and only if the last of those writes deletes it |
| `Isolation.SerialOrderIff` | internal/shard/component/shard.go:189-281 | the commit order of a shard is a serial order for its SER transactions, over their recorded reads (the last of each key), if and only if those stay current between vote and commit |
| `Isolation.StoreEndsSerial` | internal/shard/component/shard.go:255-281 | the store of a shard ends with the values of the serial machine, whatever was read |
| `Isolation.DisjointWindowsAreSerial` | internal/shard/component/shard.go:189-281 | a shard whose vote-to-commit windows hold no other commit is serial in commit order over the recorded reads, the last of each key, and its commit times increase |
| `Router.RouterNode.BeginTransaction` | internal/mulberry/mulberry.go:44-66 | two ticks of the clock: the first names the transaction, the second is its snapshot; a known name is an error |
| `Router.RouterNode.EnsureShardStarted` | internal/mulberry/mulberry.go:261-284 | a shard becomes involved when its start is known to have succeeded, and only then |
| `Router.RouterNode.CollectVotes` | internal/mulberry/mulberry.go:174-199 | phase one, in any order, stops at the first shard that does not say COMMIT; success if and only if all do |
| `Router.RouterNode.MaxPrepareTime` | internal/mulberry/mulberry.go:201-207 | the greatest of the prepare times, 0 when there is none |
| `Router.RouterNode.Commit` | internal/mulberry/mulberry.go:167-227 | commits if and only if every involved shard said COMMIT; then exactly the involved shards are sent one commit time, otherwise exactly they are sent an abort; the context is gone |
| `Router.RouterNode.AbortAll` | internal/mulberry/mulberry.go:306-322 | exactly the involved shards are sent an abort and the context is removed |
| `Router.RouterNode.Abort` | internal/mulberry/mulberry.go:230-238 | abort of an unknown transaction is an error and sends nothing, of a known one it sends an abort to exactly the involved shards and ends the context |
| `Router.CommitTimeAbove` | internal/mulberry/mulberry.go:201-208 | the commit time is above every prepare time and every earlier reading of the router's clock |
| `Router.CommitTimeExact` | internal/mulberry/mulberry.go:201-208 | the commit time is the physical time if that is ahead of the clock and every prepare time, and otherwise one more than the greatest of them |
| `Router.BeginLaw` | internal/mulberry/mulberry.go:44-66 | the name comes from the next clock reading and the snapshot is the one after it; no shard is involved; a name in use is an error |
| `Router.DecimalIsNumeral` | internal/mulberry/mulberry.go:49-50 | the number in a name is written in base ten: digits only, no leading zero, and they evaluate to it |
| `Router.TxNameInjective` | internal/mulberry/mulberry.go:49-50 | different versions give different transaction names |
| `RouterSteps.BeginIsAction` | internal/mulberry/mulberry.go:44-66 | a begin call of the router object is the action Begin, and its error cannot happen |
| `RouterSteps.StartIsAction` | internal/mulberry/mulberry.go:261-284 | starting a shard is nothing for an involved shard and the action Start otherwise; it succeeds if and only if the shard had no buffer of the transaction and its answer arrives |
| `RouterSteps.AbortIsAction` | internal/mulberry/mulberry.go:230-238 | an abort call of an active transaction is the action GiveUp, and the outcome messages new on the network are exactly those sent |
| `RouterSteps.CommitIsRun` | internal/mulberry/mulberry.go:167-227 | every commit call that succeeds is a legal run: ask, each shard votes and is heard, decide; it leaves the same memory and promises, and the outcome messages new on the network are exactly those sent |
| `RouterSteps.FailureIsRun` | internal/mulberry/mulberry.go:172-199 | every commit call that fails is a legal run that ends with giving up, as when the request to the failing shard got lost; those asked that said COMMIT have promised, and the outcome messages new on the network are exactly the aborts sent |
| `RouterSteps.RefusalIsRun` | internal/mulberry/mulberry.go:172-199 | a commit call that fails at a shard that was reached is a legal run in which that shard votes too, with the state its vote leaves: its ABORT vote is heard, or its vote gets lost; the new outcome messages are exactly the aborts sent |
| `ClusterInvariant.NameIsNew` | internal/mulberry/mulberry.go:48-54 | a name the router generates was never used before |
| `ClusterInvariant.NextKeeps` | internal/mulberry/mulberry.go:167-322 | every action of the router, a shard or the network keeps the cluster invariant |
| `ClusterInvariant.CommitPremises` | internal/mulberry/mulberry.go:210-223 | a commit message only ever finds a shard that promised, at a time after its promise |
| `ClusterInvariant.ReachableInv` | internal/mulberry/mulberry.go:167-322 | the invariant holds after every run from empty shards |
| `Guarantees.CommitNeedsEveryVote` | internal/mulberry/mulberry.go:172-223 | a shard has committed only if every involved shard voted COMMIT, at an earlier time |
| `Guarantees.Agreement` | internal/mulberry/mulberry.go:167-227 | no two shards ever decide a transaction differently, in any two states of a run |
| `Guarantees.CommitNeverRefused` | internal/shard/component/shard.go:255-281 | a delivered commit finds the buffer that was voted on, applies exactly it, and meets no version conflict |
| `Guarantees.PromiseKept` | internal/shard/component/shard.go:189-252 | through any run without the router's own outcome, a promised transaction keeps its buffer, locks and prepare time |
| `Guarantees.NoLockLeak` | internal/shard/component/shard.go:189-304 | who holds a lock voted COMMIT and has a live buffer; the locks are exactly its write keys, all exclusive |
| `Guarantees.OutcomeReleases` | internal/shard/component/shard.go:189-304 | every abort vote, commit and abort leaves the transaction with no lock and no buffer |
| `Guarantees.LogsStand` | internal/shard/component/shard.go:255-281 | in every reachable state each shard's store is its log of justified commits, and no transaction is in it twice |
| `Guarantees.StoreIsSerial` | internal/shard/component/shard.go:255-281 | in every reachable state a shard shows the values of the serial machine |
| `Guarantees.LostUpdateFreedom` | internal/shard/component/shard.go:139-228 | in every reachable state: no lost update, and at most one SI or SER commit per key and nonzero version seen |
| `Guarantees.SerializableIff` | internal/shard/component/shard.go:230-246 | in every reachable state, at each shard: the commit order is serial for the SER transactions, over their recorded reads (the last of each key), if and only if those stay current between vote and commit |
| `Guarantees.WrittenIffApplied` | internal/mulberry/mulberry.go:210-223 | a committed transaction's write is in a shard's store, under the one commit time, exactly when its commit message was applied there |
| `Guarantees.SnapshotAllOrNothing` | internal/shard/component/store.go:65-88 | once applied everywhere, a snapshot has all of a transaction's writes at or below it, each visible or superseded, or none |
| `Guarantees.SnapshotCut` | internal/mulberry/mulberry.go:56-61 | a commit time is below a snapshot if and only if it was decided before the snapshot was taken; they are never equal |
| `Guarantees.LaterCommitsInvisible` | internal/shard/component/store.go:65-88 | a snapshot shows nothing of a transaction decided after it was taken |
| `Guarantees.OneTxPerTime` | internal/mulberry/mulberry.go:208 | a commit time names one transaction |
| `SystemOrder.OrderExists` | internal/mulberry/mulberry.go:201-223 | the committed transactions have an order by commit time |
| `SystemOrder.SnapshotIsPrefix` | internal/shard/component/store.go:65-88 | a snapshot read at a shard with no commit timed up to the snapshot on its way shows the system after a prefix of that order, each transaction one update of all shards |
| `SystemOrder.SystemSerialIff` | internal/shard/component/shard.go:230-246 | in every reachable state commit-time order is one serial order for all shards, over the recorded SER reads (the last of each key), if and only if the commits a shard applied or has still to apply after the vote, timed below the reader's commit, leave each of them current |
| `SystemOrder.ServedIsSnapshot` | internal/shard/component/shard.go:230-246 | at a shard with no earlier-timed commit on its way, a recorded SER read is that of the serial run if and only if a snapshot just below the reader's commit shows the same |
| `SystemOrder.ArrivedIsApplied` | internal/mulberry/mulberry.go:210-223 | what is timed below a bound has been applied when no such commit is on its way; with none on its way a shard has nothing still to apply |
| `SystemOrder.SystemSerialIffShards` | internal/shard/component/shard.go:230-246 | when times rise along every log, commits still to come counted at its end, that is so if and only if at each shard the recorded SER reads stay current between vote and commit |
| `SystemOrder.DisjointWindowsAreSystemSerial` | internal/shard/component/shard.go:189-281 | when no commit falls into the vote-to-commit window of another at any shard, the recorded reads, and the values of every shard that has all its commits, are those of one serial run in commit-time order |
| `SystemOrder.EndsSerial` | internal/shard/component/shard.go:255-281 | whatever the windows, a shard with no commit on its way ends with the values of the serial run in commit-time order |
| `Shown.LeftCurrentIff` | internal/shard/component/shard.go:230-246 | after more commits a record agrees with what is visible if and only if they leave it current |
| `Shown.ShownIsTimed` | internal/shard/component/store.go:65-88 | a snapshot shows the latest value of the commits timed up to it |
| `Reread.SameAnswerIff` | internal/shard/component/shard.go:99-136 | at any two moments of a run a shard answers a transaction's read of a key the same if and only if the commits applied in between, timed at or below its snapshot, leave the first answer current, or the snapshot is the last 64-bit version, at which nothing is ever found |
| `Answers.AnswerServedIff` | internal/shard/component/shard.go:99-136 | any answer to a read of a key the transaction has not written, given at any moment of a run, recorded or not and at any level, is what the serial run shows just before its commit if and only if the commits timed below its own that are above its snapshot or were applied later leave the answer current |
| `Answers.CommitsAboveSnapshot` | internal/mulberry/mulberry.go:201-208 | a transaction commits at a time above its snapshot |
| `Reread.LogGrows` | internal/shard/component/shard.go:255-281 | through every run a shard's log only grows |
| `Runs.ReachableNext` | internal/mulberry/mulberry.go:167-322 | what any enabled action leads to is reachable |
| `Progress.ATransactionCommits` | internal/mulberry/mulberry.go:167-227 | from any idle system with its clocks at zero a transaction can run from begin to commit, and the shard then shows what it wrote |
| `WriteSkew.SerAllowsWriteSkew` | internal/shard/component/shard.go:207-246 | from any idle system a reachable run in which two SER transactions commit although neither order of them is serial: prepare takes no read locks |
| `LostToDelete.UpdateLostToDelete` | internal/shard/component/shard.go:216-228 | from any idle system a reachable run in which an SI transaction commits over a put and a delete of a key it had seen missing |
| `LateCommit.ReadsTwice` | internal/shard/component/buffer.go:73-82 | from any idle system with two shards a reachable double read: missing, then found, by a commit timed below the snapshot that came in between; only the second is recorded, and the SER reader votes COMMIT |
| `LateCommit.SerialShardsNotSystem` | internal/shard/component/shard.go:189-281 | from any idle system with two shards a reachable run, all delivered, in which each shard is serial in its own order but neither order of the two transactions is serial for the system |
| `Overlap.OverlappingAbortDisagrees` | internal/mulberry/mulberry.go:210-238 | in every reachable state in which a shard has not heard of a decision to commit, an overlapping abort makes it abort while any other involved shard commits, or has committed; the late commit is refused |
| `Overlap.OverlappingAbortBeforeDecision` | internal/mulberry/mulberry.go:167-238 | an abort that overlaps phase one after the votes: the commit call decides all the same, one shard commits, the other has aborted |
| `Overlap.MidCommitReached` | internal/mulberry/mulberry.go:167-227 | from any idle system with two shards the middle of phase two can be reached |
| `Overlap.AllInReached` | internal/mulberry/mulberry.go:167-199 | and so can the end of phase one |
| `Dependency.DependencyGraph.AddTemplate` | internal/model/dependency.go:51-56 | registers or replaces a template by name |
| `Dependency.DependencyGraph.AddEdge` | internal/model/dependency.go:59-63 | appends to the edge list and to the adjacency list of the source |
| `Dependency.DependencyGraph.AddLinks` | internal/model/dependency.go:79-84 | one edge for each key of one set that the other has too |
| `Dependency.DependencyGraph.BuildFromTemplates` | internal/model/dependency.go:66-101 | adds, for every ordered pair of different templates, exactly the write-read, write-write and read-write edges, each once, in any map order |
| `Dependency.DependencyGraph.HasCycle` | internal/model/dependency.go:104-135 | terminates and is true if and only if a cycle, self-loops included, is reachable from a registered node |
| `Dependency.DependencyGraph.FindCycles` | internal/model/dependency.go:138-180 | for any order of the names: lists only reachable duplicate-free cycles; every reachable cycle contains the closing edge of a listed one; empty if and only if there is none; exactly one list for each edge that leads back in the order of finishing; two lists closed between the same two nodes are equal; a listed cycle through the first name starts there |
| `Dependency.CycleCheck.Dfs` | internal/model/dependency.go:108-125 | unless it finds a cycle it finishes the node and everything below it, each after its successors |
| `Dependency.CycleSearch.Dfs` | internal/model/dependency.go:145-172 | finishes the node; every edge of a finished node leads to one finished before or closes a listed cycle |
| `Dependency.CycleSearch.Follow` | internal/model/dependency.go:150-168 | one edge: a node on the path closes a listed cycle, an unvisited one is searched, any other was finished before |
| `Dependency.CycleSearch.Extract` | internal/model/dependency.go:154-166 | the path from the target of a back edge on is listed, once, and the edge closes it |
| `Dependency.EveryCycleIsCut` | internal/model/dependency.go:108-180 | after a full search every reachable cycle has an edge that closes a listed one |
| `Dependency.FullSearch` | internal/model/dependency.go:127-179 | after a full search there is a listed cycle if and only if a cycle is reachable |
| `Dependency.ConflictKinds` | internal/model/dependency.go:79-98 | the conflict edges, exactly, by kind: write-read and write-write edges leave a template that writes the key, read-write edges one that reads it, and so on at the other end |
| `Dependency.ConflictsMirror` | internal/model/dependency.go:79-98 | every conflict edge has a conflict edge back over the same key |
| `Dependency.ConflictGraphCyclicIff` | internal/model/dependency.go:65-101 | a graph built from templates alone is cyclic if and only if two different templates share a key that at least one writes |
| `Completeness.BuiltIsClosed` | internal/model/dependency.go:65-101 | every edge of a graph built from templates leads to a registered name |
| `Completeness.ApartFindsAll` | internal/model/dependency.go:137-180 | if no two different reachable cycles share an edge, every one is listed, up to where it starts, in every order of the map |
| `Completeness.SharedEdgeMissesOne` | internal/model/dependency.go:137-180 | of two different cycles that share an edge into the name visited first, at most one is listed |
| `Completeness.FullIffApart` | internal/model/dependency.go:137-180 | the comment "returns all cycles" holds in every order of the map if and only if no two different cycles share an edge; otherwise in some order no result is complete |
| `Unlisted.SomeCycleUnlisted` | internal/model/dependency.go:137-180 | the comment "returns all cycles" is false: on the hub graph no result as short as the edge list holds every cycle |
| `Unlisted.HubGraphMisses` | internal/model/dependency.go:51-180 | the hub graph, built on the object, and a reachable cycle that its FindCycles leaves out |
| `HashRing.HashRing.WithVNodes` | internal/csrs/hash_ring.go:32-42 | an empty ring; a count of virtual nodes that is not positive becomes 150 |
| `HashRing.HashRing.AddShard` | internal/csrs/hash_ring.go:46-66 | the append loop and the sort leave `OnAdd`; a known shard changes nothing |
| `HashRing.HashRing.RemoveShard` | internal/csrs/hash_ring.go:70-90 | the loop that deletes from the map it reads leaves `OnRemove`; an unknown shard changes nothing |
| `HashRing.HashRing.Search` | internal/csrs/hash_ring.go:169-177 | binary search for the first position at or after a hash, 0 past the end |
| `HashRing.HashRing.GetShardForKey` | internal/csrs/hash_ring.go:94-105 | the owner of that position, the empty name on an empty ring |
| `HashRing.HashRing.Walk` | internal/csrs/hash_ring.go:124-136 | the circular walk terminates within one turn with the first owners met, each once |
| `HashRing.HashRing.GetNShards` | internal/csrs/hash_ring.go:109-137 | the first min(n, shard count) owners met clockwise; nothing for any n without shards |
| `HashRing.VirtualNodeKeyInjective` | internal/csrs/hash_ring.go:185-188 | below 5 524 900 virtual nodes no two of any shards share a key |
| `HashRing.VirtualNodeKeyIsNumeral` | internal/csrs/hash_ring.go:185-188 | up to 5 524 800 virtual nodes the key is the shard, "#" and the digits of the index, hundreds in one character |
| `HashRing.VirtualNodeKeysUniqueIff` | internal/csrs/hash_ring.go:185-188 | the key is unique to a virtual node, as its comment says, if and only if there are at most that many |
| `RingLaws.SortedIsSort` | internal/csrs/hash_ring.go:60-62 | the model of the library sort is ordered and a permutation |
| `RingLaws.RunIsFaithful` | internal/csrs/hash_ring.go:46-90 | after any adds and removes the ring is the sorted list of the virtual nodes of the current shards, under their owners |
| `RingLaws.RingIsItsShards` | internal/csrs/hash_ring.go:46-90 | two runs of changes that leave the same shards leave the same ring |
| `RingLaws.RunIsInOrder` | internal/csrs/hash_ring.go:46-90 | the ring is sorted after every run of changes, collisions or not |
| `RingLaws.RemoveUndoesAddIff` | internal/csrs/hash_ring.go:46-90 | removing a shard undoes adding it if and only if none of its virtual nodes falls on the position of another one |
| `RingLaws.RoutingRestoredIff` | internal/csrs/hash_ring.go:46-105 | every key is routed as before the two changes if and only if that is so or there was no shard before |
| `RingLaws.RouteIff` | internal/csrs/hash_ring.go:94-105 | a key is routed to a shard if and only if no virtual node is nearer clockwise than one of that shard |
| `RingLaws.AddMovesOnlyToNew` | internal/csrs/hash_ring.go:46-105 | adding a shard moves keys to it and to no other |
| `RingLaws.RemoveMovesOnlyOwn` | internal/csrs/hash_ring.go:70-105 | removing a shard moves only its own keys |
| `RingLaws.ReplicasAreNearest` | internal/csrs/hash_ring.go:107-137 | the replicas are min(n, count) distinct members, the nearest ones in order of distance; the first is where the key is routed |
| `RingLaws.ReplicasPrefix` | internal/csrs/hash_ring.go:107-137 | the result for n is a prefix of that for n + 1 |
| `RingLaws.OneTurnIsEnough` | internal/csrs/hash_ring.go:127-134 | without collisions one turn meets every shard, so the walk ends |
| `RingLaws.CollisionLosesKeys` | internal/csrs/hash_ring.go:54-86 | for any number of virtual nodes: if an added shard collides, removing it leaves a position to nobody, and a key that hashes there is routed to nobody |
| `Topology.TopologyManager.AddShard` | internal/csrs/topology_manager.go:39-57 | a new shard joins registry and ring under a higher version; a known one is overwritten, its address included, without a new version |
| `Topology.TopologyManager.RemoveShard` | internal/csrs/topology_manager.go:61-74 | a known shard leaves registry and ring under a higher version |
| `Topology.TopologyManager.UpdateShardStatus` | internal/csrs/topology_manager.go:78-88 | only the status and the version change |
| `Topology.TopologyManager.GetShardForKey` | internal/csrs/topology_manager.go:91-100 | an error if and only if there are no shards; otherwise a registered shard |
| `Topology.TopologyManager.GetShardAddressForKey` | internal/csrs/topology_manager.go:103-118 | with shards present the address of the routed one; its "not found in registry" error cannot happen |
| `Topology.TopologyManager.IncrementVersion` | internal/csrs/topology_manager.go:223-225 | the version is the next tick of the clock |

## Left out

- gRPC servers, the connection manager, the command-line mains and the configuration: a call
  is a step, a message or a parameter that says what came back.
- Mutexes: each locked method is one atomic step; concurrency is the interleaving of steps.
- Wall clocks: every method that reads the time takes it as the parameter `now`. Each shard
  and the router have a clock of their own; the process-wide singleton of
  internal/hlc/hlc.go:27-36 is not modelled.
- SHA-256: the ring takes the hash as a function; how evenly keys spread is not stated.
- The operation log: its implementation does nothing; only the clock ticks of its call sites remain.
- Liveness: a lost commit or abort message leaves a shard's locks in place for good, as in the code.
- RA, CC, PC and PSI: at these levels Prepare checks nothing beyond the write locks, so nothing more is claimed.
- Snapshot isolation from the snapshot time: `OriginalVersion` is the latest version at write
  time (internal/shard/component/shard.go:145-152), so only the window from write to commit is protected;
  and a read may come between the commits of one transaction at two shards.
- Garbage collection as a step of the cluster: nothing in the repository calls it while
  transactions run; `Store.CollectedKeepsReads` says what it preserves.
- `lockEntry.waiters`, `ErrDeadlock`, `GetExact`, `GetAllVersions`, registry getters, `GetAllShards`,
  `String` methods and key listings: unused or easy.
- The calls `GetNShardsForKey`, `GetTopologySnapshot` and the config-server sync loop.
- Pointers as values: lock entries, write operations, templates, shard records and
  transaction contexts are values; a caller that keeps such a pointer and changes the object later is not modelled.
- Buffer.TxBufferManager.Put: the source writes through the pointer that Get returns; here the manager forwards the write so that its view of all buffers stays exact.
- Buffer.TxBufferManager.NoteRead: forwards a read record for the same reason.
- Buffer.TxBuffer.ReadRecords: any order of the records is allowed, as for the source's map.
- HashRing.HashRing.AddShard: the library sort is the function `Sorted`, which `RingLaws.SortedIsSort` shows to be one.
- HashRing.HashRing.RemoveShard: the capacity hint of the new slice, which is negative only on rings that lost positions to collisions, is not modelled.
- HashRing.HashRing.GetNShards: with shards present a negative `n`, on which the source panics, is excluded. On a ring that is not empty the walk ends if and only if one turn meets as many owners as are wanted, which is its precondition; `RingLaws.OneTurnIsEnough` derives that from the premise.
- Dependency.DependencyGraph.FindCycles: `order` is the order in which the map yields the names. Which of several cycles with a common edge is listed is not stated.
- Completeness.FullIffApart: an edge added by hand to a name that is never registered has no first visit of that name to argue with; `ApartFindsAll` covers such graphs, the converse does not.
- Isolation.SerialOrderIff: speaks of the reads a shard recorded, which are the last of each key and the only ones it checks; so do `Guarantees.SerializableIff` and the serial-order lemmas of `SystemOrder`. `Answers.AnswerServedIff` covers the other answers one by one.
- Router.RouterNode.Commit: replies are a parameter that gives each shard one answer; the cluster model covers late and lost ones.
