/** What each call does to a shard, component by component, over the commits it has applied. */
module ShardLaws {
  import opened Basics
  import Hlc
  import S = Store
  import L = Locks
  import B = Buffer
  import T = TxStatus
  import opened Shard
  import opened Site
  import opened SiteInvariant
  import opened Reread

  /** A shard that knows no buffer of the transaction refuses its reads, writes, prepares and
      commits, and stays as it is. */
  lemma UnknownIsRefused(s: Site, tx: TxId, k: Key, v: Text, deleted: bool, snapshot: u64, iso: Isolation, at: u64,
                         now: u64)
    requires tx !in s.st.buffers
    ensures Read(s, tx, k, snapshot, now) == s && OnRead(s.st, tx, k, snapshot, now).1 == Err(TxNotFound)
    ensures Write(s, tx, k, v, deleted, now) == s && OnWrite(s.st, tx, k, v, deleted, now).1 == Err(TxNotFound)
    ensures Prepare(s, tx, iso, now) == (s, Ballot(VoteAbort, 0, Some(TxNotFound)))
    ensures Commit(s, tx, at, now) == (s, Some(TxNotFound))
  {
  }

  // ---------------------------------------------------------------- start

  /** A start refuses a transaction that has a buffer and leaves everything as it is;
      otherwise it adds an empty buffer and nothing else. */
  lemma StartLaw(s: Site, tx: TxId)
    ensures tx in s.st.buffers ==> Start(s, tx) == s && OnStart(s.st, tx).1 == Some(TxAlreadyExists)
    ensures tx !in s.st.buffers ==>
              && Start(s, tx) == s.(st := s.st.(buffers := s.st.buffers[tx := B.Buf(map[], [], map[])]))
              && OnStart(s.st, tx).1 == None
  {
  }

  // ---------------------------------------------------------------- reads and writes

  /** A read of a key the transaction has not written answers what its snapshot shows of the
      commits applied so far, records exactly that answer, and takes a tick if it found
      something; nothing else changes. */
  lemma ReadLaw(s: Site, tx: TxId, k: Key, snapshot: u64, now: u64)
    requires Inv(s) && tx in s.st.buffers && k !in s.st.buffers[tx].writes
    ensures var b, reply := s.st.buffers[tx], ReplyAt(s.log, k, snapshot);
            && OnRead(s.st, tx, k, snapshot, now).1 == Ok(reply)
            && Read(s, tx, k, snapshot, now) ==
               s.(st := s.st.(ts := if reply.found then Hlc.TickTs(s.st.ts, now) else s.st.ts,
                              buffers := s.st.buffers[tx := b.(readSet := b.readSet[k := RecordOf(k, reply)])]))
  {
    ReplayIsHistory(s.log, k);
  }

  /** A read of a key the transaction has written answers its own last write and changes nothing. */
  lemma OwnReadLaw(s: Site, tx: TxId, k: Key, snapshot: u64, now: u64)
    requires tx in s.st.buffers && k in s.st.buffers[tx].writes
    ensures var op := s.st.buffers[tx].writes[k];
            && Read(s, tx, k, snapshot, now) == s
            && (op.deleted ==> OnRead(s.st, tx, k, snapshot, now).1 == Ok(NOT_FOUND))
            && (!op.deleted ==>
                  OnRead(s.st, tx, k, snapshot, now).1 == Ok(ReadReply(op.value, op.originalVersion, true)))
  {
  }

  /** A write answers the latest visible version of the key and buffers the operation with it,
      at the key's first position; it takes a tick, and nothing else changes. */
  lemma WriteLaw(s: Site, tx: TxId, k: Key, v: Text, deleted: bool, now: u64)
    requires Inv(s) && tx in s.st.buffers
    ensures var b, latest := s.st.buffers[tx], VersionAt(s.log, |s.log|, k);
            && OnWrite(s.st, tx, k, v, deleted, now).1 == Ok(latest)
            && Write(s, tx, k, v, deleted, now) ==
               s.(st := s.st.(ts := Hlc.TickTs(s.st.ts, now),
                              buffers := s.st.buffers[tx :=
                                b.(writes := b.writes[k := B.WriteOp(k, v, deleted, latest)],
                                   order := if k in b.writes then b.order else b.order + [k])]),
                  marks := s.marks[tx := MarksOf(s, tx)[k := |s.log|]])
  {
    CurrentVersion(s, k);
  }

  /** What was written is what is read, and what was deleted is missing, whatever the snapshot. */
  lemma ReadsOwnWrite(s: Site, tx: TxId, k: Key, v: Text, deleted: bool, now: u64, snapshot: u64, now': u64)
    requires Inv(s) && tx in s.st.buffers
    ensures var s' := Write(s, tx, k, v, deleted, now);
            && Read(s', tx, k, snapshot, now') == s'
            && OnRead(s'.st, tx, k, snapshot, now').1 ==
               Ok(if deleted then NOT_FOUND else ReadReply(v, VersionAt(s.log, |s.log|, k), true))
  {
    WriteLaw(s, tx, k, v, deleted, now);
  }

  // ---------------------------------------------------------------- prepare, commit, abort

  /** Who holds what, but for one transaction. */
  ghost predicate LocksSame(t: L.LockTable, t': L.LockTable, tx: TxId) {
    forall w :: w != tx ==> L.Held(t', w) == L.Held(t, w)
  }

  /** A COMMIT vote takes the next reading of the clock as its time, marks the transaction
      prepared at that time, and gives it the exclusive locks of its write keys; its
      buffer, the store and everybody else stay as they are. */
  lemma CommitVoteLaw(s: Site, tx: TxId, iso: Isolation, now: u64)
    requires Inv(s) && Prepare(s, tx, iso, now).1.vote == VoteCommit
    ensures var (s', ballot), time := Prepare(s, tx, iso, now), Hlc.TickTs(s.st.ts, now);
            && ballot == Ballot(VoteCommit, time, None) && tx in s.st.buffers
            && s' == s.(st := s.st.(ts := time, locks := s'.st.locks,
                                    status := s.st.status[tx := T.TxState(T.Prepared, time)]),
                        pledges := s.pledges[tx := Pledge(s.st.buffers[tx], iso, time, |s.log|, MarksOf(s, tx))])
            && L.Held(s'.st.locks, tx) == (map k | k in s.st.buffers[tx].writes :: L.LockWrite)
            && LocksSame(s.st.locks, s'.st.locks, tx)
  {
    VoteValidates(s, tx, iso, now);
    assert Settled(s, tx);
    NoOrderNoWrites(s.st.buffers[tx]);
    VoteShape(s, tx, iso, now);
    WriteLocksTaken(s, tx);
  }

  lemma WriteLocksTaken(s: Site, tx: TxId)
    requires Inv(s) && tx in s.st.buffers
    ensures var b := s.st.buffers[tx];
            var (locks, granted) := L.AcquireAll(s.st.locks, tx, b.order);
            && (granted ==> L.Held(locks, tx) == map k | k in b.writes :: L.LockWrite)
            && LocksSame(s.st.locks, locks, tx)
  {
    var b := s.st.buffers[tx];
    assert Settled(s, tx);
    L.AcquireAllLaw(s.st.locks, tx, b.order);
    if L.Held(s.st.locks, tx) == map[] {
      OrderLocks(b);
    } else {
      OrderLocksAgain(b);
    }
  }

  lemma OrderLocksAgain(b: B.Buf)
    requires B.Sound(b)
    ensures var held := map k | k in b.writes :: L.LockWrite;
            L.WriteLocked(held, b.order) == held
  {
  }

  /** An ABORT vote of a transaction that has a buffer drops the buffer and every lock; it is
      the answer "no operations" for an empty one and no error otherwise. It takes a tick,
      and the store and everybody else stay as they are. */
  lemma AbortVoteLaw(s: Site, tx: TxId, iso: Isolation, now: u64)
    requires Inv(s) && tx in s.st.buffers && Prepare(s, tx, iso, now).1.vote == VoteAbort
    ensures var (s', ballot), b := Prepare(s, tx, iso, now), s.st.buffers[tx];
            var empty := b.writes == map[] && b.readSet == map[];
            && ballot == Ballot(VoteAbort, 0, if empty then Some(TxNoOps) else None)
            && s' == s.(st := s.st.(ts := Hlc.TickTs(s.st.ts, now), locks := s'.st.locks,
                                    buffers := s.st.buffers - {tx}, status := s'.st.status))
            && (!empty ==> s'.st.status == s.st.status[tx := T.TxState(T.Aborted, 0)])
            && (empty ==> s'.st.status == Ended(s.st.status, tx, T.Aborted))
            && L.Held(s'.st.locks, tx) == map[] && LocksSame(s.st.locks, s'.st.locks, tx)
  {
    var b := s.st.buffers[tx];
    assert Settled(s, tx);
    NoOrderNoWrites(b);
    if b.order == [] && b.readSet == map[] {
      AbortLaw(s, tx, now);
    } else {
      var locks := L.AcquireAll(s.st.locks, tx, b.order).0;
      L.AcquireAllLaw(s.st.locks, tx, b.order);
      VoteShape(s, tx, iso, now);
      L.ReleaseLaw(locks, tx);
    }
  }

  /** The status table after an outcome: a transaction it knows keeps its prepare time, and
      one it does not know stays unknown. */
  function Ended(states: T.States, tx: TxId, outcome: T.Status): T.States {
    map t | t in states :: if t == tx then T.TxState(outcome, states[t].prepareTime) else states[t]
  }

  /** An abort, of a known transaction or not, drops its buffer and its locks, marks it
      aborted and takes a tick; the store and everybody else stay as they are. */
  lemma AbortLaw(s: Site, tx: TxId, now: u64)
    requires L.Agree(s.st.locks)
    ensures var s' := Abort(s, tx, now);
            && s' == s.(st := s.st.(ts := Hlc.TickTs(s.st.ts, now), locks := s'.st.locks,
                                    buffers := s.st.buffers - {tx}, status := Ended(s.st.status, tx, T.Aborted)))
            && L.Held(s'.st.locks, tx) == map[] && LocksSame(s.st.locks, s'.st.locks, tx)
  {
    L.ReleaseLaw(s.st.locks, tx);
    EndedIsMark(s.st.status, tx, T.Aborted);
  }

  lemma EndedIsMark(states: T.States, tx: TxId, outcome: T.Status)
    ensures T.Mark(states, tx, outcome) == Ended(states, tx, outcome)
  {
  }

  /** A commit installs each pending operation as one version at the commit time and leaves
      the other keys alone, moves the clock past that time, drops the buffer and the locks
      and marks the transaction committed; everybody else stays as they are. */
  lemma CommitLaw(s: Site, tx: TxId, at: u64, now: u64)
    requires L.Agree(s.st.locks) && tx in s.st.buffers && B.Sound(s.st.buffers[tx]) && S.WellFormed(s.st.data)
    ensures var (s', error), b := Commit(s, tx, at, now), s.st.buffers[tx];
            && error == None
            && s'.st == s.st.(data := s'.st.data, ts := Hlc.UpdateTs(s.st.ts, at, now), locks := s'.st.locks,
                              buffers := s.st.buffers - {tx}, status := Ended(s.st.status, tx, T.Committed))
            && s'.marks == s.marks && s'.pledges == s.pledges
            && L.Held(s'.st.locks, tx) == map[] && LocksSame(s.st.locks, s'.st.locks, tx)
            && forall k :: S.VersionsOf(s'.st.data, k) ==
                 if k in b.writes then S.Insert(S.VersionsOf(s.st.data, k), Version(b.writes[k], at, tx))
                 else S.VersionsOf(s.st.data, k)
  {
    var b := s.st.buffers[tx];
    L.ReleaseLaw(s.st.locks, tx);
    EndedIsMark(s.st.status, tx, T.Committed);
    forall k ensures S.VersionsOf(Install(s.st.data, B.Ops(b), at, tx), k) ==
                     if k in b.writes then S.Insert(S.VersionsOf(s.st.data, k), Version(b.writes[k], at, tx))
                     else S.VersionsOf(s.st.data, k)
    {
      OpsOnePerKey(b);
      if k in b.writes {
        var i := OpOf(b, k);
        Installed(s.st.data, B.Ops(b), at, tx, i);
      } else {
        NotInstalled(s.st.data, B.Ops(b), at, tx, k);
      }
    }
  }

  /** The version an operation installs. */
  function Version(op: B.WriteOp, at: u64, tx: TxId): S.VersionedValue {
    if op.deleted then S.VersionedValue(NO_TEXT, at, true, tx) else S.VersionedValue(op.value, at, false, tx)
  }

  lemma {:induction false} NotInstalled(data: S.Data, ops: seq<B.WriteOp>, at: u64, tx: TxId, k: Key)
    requires S.WellFormed(data) && forall op <- ops :: op.key != k
    ensures S.VersionsOf(Install(data, ops, at, tx), k) == S.VersionsOf(data, k)
  {
    if ops != [] {
      var init, last := ops[..|ops| - 1], ops[|ops| - 1];
      NotInstalled(data, init, at, tx, k);
      InstallKeepsOrder(data, init, at, tx);
      PutOnKey(Install(data, init, at, tx), last.key, Version(last, at, tx), k);
      assert last in ops;
    }
  }

  lemma {:induction false} Installed(data: S.Data, ops: seq<B.WriteOp>, at: u64, tx: TxId, i: nat)
    requires S.WellFormed(data) && OnePerKey(ops) && i < |ops|
    ensures var k := ops[i].key;
            S.VersionsOf(Install(data, ops, at, tx), k) == S.Insert(S.VersionsOf(data, k), Version(ops[i], at, tx))
  {
    var init, last, k := ops[..|ops| - 1], ops[|ops| - 1], ops[i].key;
    InstallKeepsOrder(data, init, at, tx);
    PutOnKey(Install(data, init, at, tx), last.key, Version(last, at, tx), k);
    if i == |init| {
      NotInstalled(data, init, at, tx, k);
    } else {
      Installed(data, init, at, tx, i);
    }
  }

  lemma PutOnKey(data: S.Data, key: Key, e: S.VersionedValue, k: Key)
    requires S.WellFormed(data)
    ensures S.VersionsOf(S.PutData(data, key, e), k) ==
            if k == key then S.Insert(S.VersionsOf(data, k), e) else S.VersionsOf(data, k)
  {
    var at := S.SplitExists(S.VersionsOf(data, key), e.version);
    S.InsertAtSplit(S.VersionsOf(data, key), e, at);
  }
}
