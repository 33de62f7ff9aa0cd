/** One data shard: the store, the lock table, the transaction buffers, the status
    table and the clock, moved by the steps of a transaction. */
module Shard {
  import opened Basics
  import Hlc
  import S = Store
  import L = Locks
  import B = Buffer
  import T = TxStatus

  datatype Isolation = UNKNOWN | RA | CC | PC | PSI | SI | SER
  datatype TxError = TxAlreadyExists | TxNotFound | TxNoOps
  datatype Vote = VoteCommit | VoteAbort
  datatype Ballot = Ballot(vote: Vote, time: u64, error: Option<TxError>)
  datatype ReadReply = ReadReply(value: Text, version: u64, found: bool)

  const NOT_FOUND := ReadReply(NO_TEXT, 0, false)

  /** Everything a shard remembers. */
  datatype State = State(data: S.Data, ts: u64, locks: L.LockTable, buffers: map<TxId, B.Buf>, status: T.States)

  ghost predicate Sound(s: State) {
    S.WellFormed(s.data) && forall t <- s.buffers :: B.Sound(s.buffers[t])
  }

  // ---------------------------------------------------------------- the steps as functions

  ghost function Tick(s: State, now: u64): State {
    s.(ts := Hlc.TickTs(s.ts, now))
  }

  ghost function OnStart(s: State, tx: TxId): (State, Option<TxError>) {
    if tx in s.buffers then (s, Some(TxAlreadyExists)) else (s.(buffers := s.buffers[tx := B.EMPTY]), None)
  }

  ghost function OnRead(s: State, tx: TxId, key: Key, snapshot: u64, now: u64): (State, Result<ReadReply, TxError>) {
    if tx !in s.buffers then (s, Err(TxNotFound))
    else
      var b := s.buffers[tx];
      if key in b.writes then
        var op := b.writes[key];
        (s, Ok(if op.deleted then NOT_FOUND else ReadReply(op.value, op.originalVersion, true)))
      else match S.GetAt(S.VersionsOf(s.data, key), snapshot)
        case Err(_) =>
          (s.(buffers := s.buffers[tx := B.RecordRead(b, B.ReadRecord(key, 0, false))]), Ok(NOT_FOUND))
        case Ok(e) =>
          (Tick(s.(buffers := s.buffers[tx := B.RecordRead(b, B.ReadRecord(key, e.version, true))]), now),
           Ok(ReadReply(e.value, e.version, true)))
  }

  /** Buffers a write or a delete together with the latest version it saw. */
  ghost function OnWrite(s: State, tx: TxId, key: Key, value: Text, deleted: bool, now: u64)
    : (State, Result<u64, TxError>)
  {
    if tx !in s.buffers then (s, Err(TxNotFound))
    else
      var original := S.LatestVersion(S.VersionsOf(s.data, key));
      var b := B.PutOp(s.buffers[tx], B.WriteOp(key, value, deleted, original));
      (Tick(s.(buffers := s.buffers[tx := b]), now), Ok(original))
  }

  ghost predicate ReadCurrent(data: S.Data, r: B.ReadRecord) {
    match S.Latest(S.VersionsOf(data, r.key))
    case None => !r.found
    case Some(e) => r.found && e.version == r.version
  }

  ghost predicate WriteCurrent(data: S.Data, op: B.WriteOp) {
    S.LatestVersion(S.VersionsOf(data, op.key)) == op.originalVersion
  }

  /** The compare-and-set checks of the isolation level. */
  ghost predicate Validates(data: S.Data, b: B.Buf, iso: Isolation) {
    && (iso == SI || iso == SER ==> forall op <- B.Ops(b) :: WriteCurrent(data, op))
    && (iso == SER ==> forall k <- b.readSet :: ReadCurrent(data, b.readSet[k]))
  }

  ghost function Cleanup(s: State, tx: TxId): State {
    s.(locks := L.Release(s.locks, tx), buffers := s.buffers - {tx})
  }

  ghost function OnAbort(s: State, tx: TxId, now: u64): State {
    var s := Cleanup(s, tx);
    Tick(s.(status := T.Mark(s.status, tx, T.Aborted)), now)
  }

  /** The vote of a transaction with something to prepare. */
  ghost function OnVote(s: State, tx: TxId, iso: Isolation, now: u64): (State, Ballot)
    requires tx in s.buffers
  {
    var b := s.buffers[tx];
    var (locks, granted) := L.AcquireAll(s.locks, tx, b.order);
    var s := s.(status := s.status[tx := T.TxState(T.Running, 0)], locks := locks);
    if granted && Validates(s.data, b, iso) then
      var s := Tick(s, now);
      (s.(status := s.status[tx := T.TxState(T.Prepared, s.ts)]), Ballot(VoteCommit, s.ts, None))
    else
      (OnAbort(s, tx, now), Ballot(VoteAbort, 0, None))
  }

  ghost function OnPrepare(s: State, tx: TxId, iso: Isolation, now: u64): (State, Ballot) {
    if tx !in s.buffers then (s, Ballot(VoteAbort, 0, Some(TxNotFound)))
    else if s.buffers[tx].order == [] && s.buffers[tx].readSet == map[] then
      (OnAbort(s, tx, now), Ballot(VoteAbort, 0, Some(TxNoOps)))
    else OnVote(s, tx, iso, now)
  }

  ghost function Entry(op: B.WriteOp, version: u64, tx: TxId): S.VersionedValue {
    S.VersionedValue(if op.deleted then NO_TEXT else op.value, version, op.deleted, tx)
  }

  /** The pending writes, applied in order; a version conflict is dropped silently. */
  ghost function Install(data: S.Data, ops: seq<B.WriteOp>, version: u64, tx: TxId): S.Data {
    if ops == [] then data
    else
      var op := ops[|ops| - 1];
      S.PutData(Install(data, ops[..|ops| - 1], version, tx), op.key, Entry(op, version, tx))
  }

  ghost function OnCommit(s: State, tx: TxId, commitTime: u64, now: u64): (State, Option<TxError>) {
    if tx !in s.buffers then (s, Some(TxNotFound))
    else
      var data := Install(s.data, B.Ops(s.buffers[tx]), commitTime, tx);
      var s := Cleanup(s.(data := data, ts := Hlc.UpdateTs(s.ts, commitTime, now)), tx);
      (s.(status := T.Mark(s.status, tx, T.Committed)), None)
  }

  lemma {:induction false} InstallKeepsOrder(data: S.Data, ops: seq<B.WriteOp>, version: u64, tx: TxId)
    requires S.WellFormed(data)
    ensures S.WellFormed(Install(data, ops, version, tx))
  {
    if ops != [] {
      var op := ops[|ops| - 1];
      InstallKeepsOrder(data, ops[..|ops| - 1], version, tx);
      S.PutKeepsOrder(Install(data, ops[..|ops| - 1], version, tx), op.key, Entry(op, version, tx));
    }
  }

  // ---------------------------------------------------------------- the shard object

  /** A shard over its five components; times read from the wall clock are passed in. */
  class ShardNode {
    const id: ShardId
    const store: S.MVCCStore
    const clock: Hlc.Clock
    const bufferMgr: B.TxBufferManager
    const lockMgr: L.LockManager
    const txStatusTbl: T.TxStatusTable

    ghost predicate Valid()
      reads bufferMgr, bufferMgr.buffers.Values
    {
      bufferMgr.Valid()
    }

    ghost function View(): State
      reads store, clock, bufferMgr, lockMgr, txStatusTbl
    {
      State(store.data, clock.ts, lockMgr.Table(), bufferMgr.Contents, txStatusTbl.states)
    }

    constructor (id: ShardId)
      ensures Valid() && this.id == id
      ensures View() == State(map[], 0, L.EMPTY, map[], map[])
      ensures fresh(store) && fresh(clock) && fresh(bufferMgr) && fresh(lockMgr) && fresh(txStatusTbl)
    {
      this.id := id;
      store := new S.MVCCStore();
      clock := new Hlc.Clock();
      bufferMgr := new B.TxBufferManager();
      lockMgr := new L.LockManager();
      txStatusTbl := new T.TxStatusTable();
    }

    method TxStart(tx: TxId) returns (r: Option<TxError>)
      requires Valid()
      modifies bufferMgr
      ensures Valid() && fresh(bufferMgr.buffers.Values - old(bufferMgr.buffers.Values))
      ensures (View(), r) == OnStart(old(View()), tx)
    {
      var existing := bufferMgr.Get(tx);
      if existing.Some? {
        return Some(TxAlreadyExists);
      }
      var buf := bufferMgr.Start(tx);
      r := None;
    }

    /** Records a found read; the log entry takes a tick. */
    method RecordAndLog(tx: TxId, buf: B.TxBuffer, record: B.ReadRecord, now: u64)
      requires Valid() && tx in bufferMgr.buffers && bufferMgr.buffers[tx] == buf
      modifies clock, bufferMgr`Contents, buf
      ensures Valid()
      ensures clock.ts == Hlc.TickTs(old(clock.ts), now)
      ensures bufferMgr.Contents == old(bufferMgr.Contents)[tx := B.RecordRead(old(bufferMgr.Contents)[tx], record)]
    {
      bufferMgr.NoteRead(tx, buf, record);
      var _ := clock.Tick(now);
    }

    method TxRead(tx: TxId, key: Key, snapshot: u64, now: u64) returns (r: Result<ReadReply, TxError>)
      requires Valid() && Sound(View())
      modifies clock, bufferMgr`Contents, bufferMgr.buffers.Values
      ensures Valid()
      ensures (View(), r) == OnRead(old(View()), tx, key, snapshot, now)
    {
      var found := bufferMgr.Get(tx);
      if found.None? {
        return Err(TxNotFound);
      }
      var buf := found.value;
      if key in buf.writes {
        var op := buf.writes[key];
        return Ok(if op.deleted then NOT_FOUND else ReadReply(op.value, op.originalVersion, true));
      }
      var stored := store.Get(key, snapshot);
      match stored {
        case Err(_) =>
          bufferMgr.NoteRead(tx, buf, B.ReadRecord(key, 0, false));
          r := Ok(NOT_FOUND);
        case Ok(e) =>
          RecordAndLog(tx, buf, B.ReadRecord(key, e.version, true), now);
          r := Ok(ReadReply(e.value, e.version, true));
      }
    }

    /** Buffers an operation; the log entry takes a tick. */
    method PutAndLog(tx: TxId, buf: B.TxBuffer, op: B.WriteOp, now: u64)
      requires Valid() && tx in bufferMgr.buffers && bufferMgr.buffers[tx] == buf
      requires op.deleted ==> op.value == NO_TEXT
      modifies clock, bufferMgr`Contents, buf
      ensures Valid()
      ensures clock.ts == Hlc.TickTs(old(clock.ts), now)
      ensures bufferMgr.Contents == old(bufferMgr.Contents)[tx := B.PutOp(old(bufferMgr.Contents)[tx], op)]
    {
      bufferMgr.Put(tx, buf, op);
      var _ := clock.Tick(now);
    }

    method LatestVersionOf(key: Key) returns (version: u64)
      ensures version == S.LatestVersion(S.VersionsOf(store.data, key))
    {
      version := 0;
      var latest := store.GetLatest(key);
      if latest.Ok? {
        version := latest.value.version;
      }
    }

    method TxWrite(tx: TxId, key: Key, value: Text, now: u64) returns (r: Result<u64, TxError>)
      requires Valid()
      modifies clock, bufferMgr`Contents, bufferMgr.buffers.Values
      ensures Valid()
      ensures (View(), r) == OnWrite(old(View()), tx, key, value, false, now)
    {
      var found := bufferMgr.Get(tx);
      if found.None? {
        return Err(TxNotFound);
      }
      var originalVersion := LatestVersionOf(key);
      PutAndLog(tx, found.value, B.WriteOp(key, value, false, originalVersion), now);
      r := Ok(originalVersion);
    }

    method TxDelete(tx: TxId, key: Key, now: u64) returns (r: Result<u64, TxError>)
      requires Valid()
      modifies clock, bufferMgr`Contents, bufferMgr.buffers.Values
      ensures Valid()
      ensures (View(), r) == OnWrite(old(View()), tx, key, NO_TEXT, true, now)
    {
      var found := bufferMgr.Get(tx);
      if found.None? {
        return Err(TxNotFound);
      }
      var originalVersion := LatestVersionOf(key);
      PutAndLog(tx, found.value, B.WriteOp(key, NO_TEXT, true, originalVersion), now);
      r := Ok(originalVersion);
    }

    method CleanupTx(tx: TxId)
      requires Valid()
      modifies lockMgr, bufferMgr
      ensures Valid() && bufferMgr.buffers == old(bufferMgr.buffers) - {tx}
      ensures View() == Cleanup(old(View()), tx)
    {
      lockMgr.ReleaseAll(tx);
      bufferMgr.Remove(tx);
    }

    /** Abort of the second phase, and the clean-up of every abort vote. */
    method Abort(tx: TxId, now: u64)
      requires Valid()
      modifies lockMgr, bufferMgr, txStatusTbl, clock
      ensures Valid() && bufferMgr.buffers == old(bufferMgr.buffers) - {tx}
      ensures View() == OnAbort(old(View()), tx, now)
    {
      CleanupTx(tx);
      txStatusTbl.Abort(tx);
      var _ := clock.Tick(now);
    }

    method AcquireWriteLocks(tx: TxId, keys: seq<Key>) returns (granted: bool)
      modifies lockMgr
      ensures (lockMgr.Table(), granted) == L.AcquireAll(old(lockMgr.Table()), tx, keys)
    {
      for i := 0 to |keys|
        invariant L.AcquireAll(old(lockMgr.Table()), tx, keys) == L.AcquireAll(lockMgr.Table(), tx, keys[i..])
      {
        assert keys[i..][0] == keys[i] && keys[i..][1..] == keys[i + 1..];
        var r := lockMgr.AcquireWriteLock(tx, keys[i]);
        if r != Ok(()) {
          return false;
        }
      }
      granted := true;
    }

    method Validate(buf: B.TxBuffer, iso: Isolation) returns (ok: bool)
      requires B.Sound(buf.View())
      ensures ok == Validates(store.data, buf.View(), iso)
    {
      if iso == SI || iso == SER {
        var ops := buf.WriteOps();
        for i := 0 to |ops|
          invariant forall j :: 0 <= j < i ==> WriteCurrent(store.data, ops[j])
        {
          var latest := store.GetLatest(ops[i].key);
          if latest.Err? {
            if ops[i].originalVersion != 0 {
              assert !WriteCurrent(store.data, ops[i]);
              return false;
            }
          } else if latest.value.version != ops[i].originalVersion {
            assert !WriteCurrent(store.data, ops[i]);
            return false;
          }
        }
      }
      if iso == SER {
        var records := buf.ReadRecords();
        for i := 0 to |records|
          invariant forall j :: 0 <= j < i ==> ReadCurrent(store.data, records[j])
        {
          assert records[i] in buf.View().readSet.Values;
          var latest := store.GetLatest(records[i].key);
          if latest.Err? {
            if records[i].found {
              return false;
            }
          } else if !records[i].found || latest.value.version != records[i].version {
            return false;
          }
        }
        forall k | k in buf.View().readSet ensures ReadCurrent(store.data, buf.View().readSet[k]) {
          assert buf.View().readSet[k] in records;
        }
      }
      ok := true;
    }

    /** The end of a successful prepare. */
    method Promise(tx: TxId, now: u64) returns (prepareTime: u64)
      modifies txStatusTbl, clock
      ensures prepareTime == clock.ts == Hlc.TickTs(old(clock.ts), now)
      ensures tx in old(txStatusTbl.states) ==>
                txStatusTbl.states == old(txStatusTbl.states)[tx := T.TxState(T.Prepared, prepareTime)]
    {
      prepareTime := clock.Tick(now);
      txStatusTbl.Prepare(tx, prepareTime);
    }

    /** The transaction is running; locks, then the checks of the isolation level. */
    method LockAndValidate(tx: TxId, buf: B.TxBuffer, iso: Isolation) returns (ok: bool)
      requires B.Sound(buf.View())
      modifies lockMgr, txStatusTbl
      ensures txStatusTbl.states == old(txStatusTbl.states)[tx := T.TxState(T.Running, 0)]
      ensures var (locks, granted) := L.AcquireAll(old(lockMgr.Table()), tx, buf.writeOrder);
              lockMgr.Table() == locks && ok == (granted && Validates(store.data, buf.View(), iso))
    {
      txStatusTbl.Start(tx);
      var granted := AcquireWriteLocks(tx, buf.writeOrder);
      if !granted {
        return false;
      }
      ok := Validate(buf, iso);
    }

    method CastVote(tx: TxId, buf: B.TxBuffer, iso: Isolation, now: u64) returns (ballot: Ballot)
      requires Valid() && tx in bufferMgr.buffers && bufferMgr.buffers[tx] == buf && B.Sound(buf.View())
      modifies lockMgr, bufferMgr, txStatusTbl, clock
      ensures Valid() && bufferMgr.buffers.Values <= old(bufferMgr.buffers.Values)
      ensures (View(), ballot) == OnVote(old(View()), tx, iso, now)
    {
      var ok := LockAndValidate(tx, buf, iso);
      if !ok {
        Abort(tx, now);
        return Ballot(VoteAbort, 0, None);
      }
      var prepareTime := Promise(tx, now);
      ballot := Ballot(VoteCommit, prepareTime, None);
    }

    method Prepare(tx: TxId, iso: Isolation, now: u64) returns (ballot: Ballot)
      requires Valid() && Sound(View())
      modifies lockMgr, bufferMgr, txStatusTbl, clock
      ensures Valid() && bufferMgr.buffers.Values <= old(bufferMgr.buffers.Values)
      ensures (View(), ballot) == OnPrepare(old(View()), tx, iso, now)
    {
      var found := bufferMgr.Get(tx);
      if found.None? {
        return Ballot(VoteAbort, 0, Some(TxNotFound));
      }
      var buf := found.value;
      if |buf.writeOrder| == 0 && |buf.readSet| == 0 {
        Abort(tx, now);
        return Ballot(VoteAbort, 0, Some(TxNoOps));
      }
      ballot := CastVote(tx, buf, iso, now);
    }

    /** Writes the pending operations to the store, ignoring its verdicts. */
    method Apply(buf: B.TxBuffer, commitTime: u64, tx: TxId)
      requires B.Sound(buf.View()) && store.Valid()
      modifies store
      ensures store.data == Install(old(store.data), B.Ops(buf.View()), commitTime, tx)
    {
      var ops := buf.WriteOps();
      for i := 0 to |ops|
        invariant store.Valid()
        invariant store.data == Install(old(store.data), ops[..i], commitTime, tx)
      {
        assert ops[..i + 1][..i] == ops[..i];
        var op := ops[i];
        if op.deleted {
          var _ := store.Delete(op.key, commitTime, tx);
        } else {
          var _ := store.Put(op.key, op.value, commitTime, tx);
        }
      }
      assert ops[..|ops|] == ops;
    }

    /** Applies the buffer and moves the clock past the commit time. */
    method ApplyAndUpdate(buf: B.TxBuffer, commitTime: u64, tx: TxId, now: u64)
      requires B.Sound(buf.View()) && store.Valid()
      modifies store, clock
      ensures store.data == Install(old(store.data), B.Ops(buf.View()), commitTime, tx)
      ensures clock.ts == Hlc.UpdateTs(old(clock.ts), commitTime, now)
    {
      Apply(buf, commitTime, tx);
      var _ := clock.Update(commitTime, now);
    }

    /** Drops the locks and the buffer and marks the transaction committed. */
    method Finish(tx: TxId)
      requires Valid()
      modifies lockMgr, bufferMgr, txStatusTbl
      ensures Valid() && bufferMgr.buffers == old(bufferMgr.buffers) - {tx}
      ensures var s := Cleanup(old(View()), tx); View() == s.(status := T.Mark(s.status, tx, T.Committed))
    {
      CleanupTx(tx);
      txStatusTbl.Commit(tx);
    }

    method Commit(tx: TxId, commitTime: u64, now: u64) returns (r: Option<TxError>)
      requires Valid() && Sound(View())
      modifies store, lockMgr, bufferMgr, txStatusTbl, clock
      ensures Valid() && bufferMgr.buffers.Values <= old(bufferMgr.buffers.Values)
      ensures (View(), r) == OnCommit(old(View()), tx, commitTime, now)
    {
      var found := bufferMgr.Get(tx);
      if found.None? {
        return Some(TxNotFound);
      }
      assert Sound(View());
      ghost var s := View();
      ghost var data := Install(s.data, B.Ops(s.buffers[tx]), commitTime, tx);
      ApplyAndUpdate(found.value, commitTime, tx, now);
      assert View() == s.(data := data, ts := Hlc.UpdateTs(s.ts, commitTime, now));
      Finish(tx);
      r := None;
    }
  }
}
