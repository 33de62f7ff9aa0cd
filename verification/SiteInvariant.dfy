/** Every step of a shard keeps its invariant, under the premises stated at the step. */
module SiteInvariant {
  import opened Basics
  import Hlc
  import S = Store
  import L = Locks
  import B = Buffer
  import T = TxStatus
  import opened Shard
  import opened Site

  // ---------------------------------------------------------------- installing a buffer

  ghost predicate AllBelow(vs: S.Versions, version: int) {
    forall i :: 0 <= i < |vs| ==> vs[i].version < version
  }

  /** What a list of operations adds to one key. */
  ghost function Added(ops: seq<B.WriteOp>, k: Key, version: u64, tx: TxId): S.Versions {
    if ops == [] then []
    else
      var op := ops[|ops| - 1];
      Added(ops[..|ops| - 1], k, version, tx) + if op.key == k then [Entry(op, version, tx)] else []
  }

  ghost predicate OnePerKey(ops: seq<B.WriteOp>) {
    forall i, j :: 0 <= i < j < |ops| ==> ops[i].key != ops[j].key
  }

  ghost predicate Above(data: S.Data, ops: seq<B.WriteOp>, version: u64) {
    forall i :: 0 <= i < |ops| ==> AllBelow(S.VersionsOf(data, ops[i].key), version)
  }

  lemma {:induction false} AddedOnce(ops: seq<B.WriteOp>, k: Key, version: u64, tx: TxId)
    requires OnePerKey(ops)
    ensures (forall i :: 0 <= i < |ops| ==> ops[i].key != k) ==> Added(ops, k, version, tx) == []
    ensures forall i :: 0 <= i < |ops| && ops[i].key == k ==> Added(ops, k, version, tx) == [Entry(ops[i], version, tx)]
  {
    if ops != [] {
      AddedOnce(ops[..|ops| - 1], k, version, tx);
    }
  }

  /** Operations above every version of their keys append to them and touch nothing else. */
  lemma {:induction false} InstallAppends(data: S.Data, ops: seq<B.WriteOp>, version: u64, tx: TxId, k: Key)
    requires OnePerKey(ops) && Above(data, ops, version)
    ensures S.VersionsOf(Install(data, ops, version, tx), k) == S.VersionsOf(data, k) + Added(ops, k, version, tx)
  {
    if ops != [] {
      var before, op := ops[..|ops| - 1], ops[|ops| - 1];
      InstallAppends(data, before, version, tx, k);
      if op.key == k {
        AddedOnce(before, k, version, tx);
        assert S.VersionsOf(data, k) + [] == S.VersionsOf(data, k);
        S.InsertAppends(S.VersionsOf(data, k), Entry(op, version, tx));
      }
    }
  }

  /** Every pending write is above the store's versions of its key. */
  ghost predicate Clear(data: S.Data, b: B.Buf, version: u64) {
    forall k <- b.writes :: AllBelow(S.VersionsOf(data, k), version)
  }

  lemma OpsOnePerKey(b: B.Buf)
    requires B.Sound(b)
    ensures OnePerKey(B.Ops(b))
  {
  }

  lemma OpsClear(data: S.Data, b: B.Buf, version: u64)
    requires B.Sound(b) && Clear(data, b, version)
    ensures Above(data, B.Ops(b), version)
  {
  }

  lemma OpOf(b: B.Buf, k: Key) returns (i: nat)
    requires B.Sound(b) && k in b.writes
    ensures i < |b.order| && B.Ops(b)[i] == b.writes[k] && b.writes[k].key == k
  {
    assert k in b.order;
    i :| 0 <= i < |b.order| && b.order[i] == k;
  }

  ghost function AddedTo(b: B.Buf, k: Key, version: u64, tx: TxId): S.Versions {
    if k in b.writes then [Entry(b.writes[k], version, tx)] else []
  }

  lemma AddedByOps(b: B.Buf, k: Key, version: u64, tx: TxId)
    requires B.Sound(b)
    ensures Added(B.Ops(b), k, version, tx) == AddedTo(b, k, version, tx)
  {
    OpsOnePerKey(b);
    AddedOnce(B.Ops(b), k, version, tx);
    if k in b.writes {
      var i := OpOf(b, k);
    }
  }

  lemma InstallAll(data: S.Data, b: B.Buf, version: u64, tx: TxId, k: Key)
    requires B.Sound(b) && Clear(data, b, version)
    ensures S.VersionsOf(Install(data, B.Ops(b), version, tx), k) == S.VersionsOf(data, k) + AddedTo(b, k, version, tx)
  {
    var ops := B.Ops(b);
    OpsOnePerKey(b);
    OpsClear(data, b, version);
    InstallAppends(data, ops, version, tx, k);
    AddedByOps(b, k, version, tx);
  }

  lemma PrefixNeverConflicts(data: S.Data, ops: seq<B.WriteOp>, n: nat, version: u64, tx: TxId)
    requires OnePerKey(ops) && Above(data, ops, version) && n < |ops|
    ensures !S.HasVersion(S.VersionsOf(Install(data, ops[..n], version, tx), ops[n].key), version)
  {
    InstallAppends(data, ops[..n], version, tx, ops[n].key);
    AddedOnce(ops[..n], ops[n].key, version, tx);
  }

  /** None of the operations finds its version taken. */
  lemma InstallNeverConflicts(data: S.Data, b: B.Buf, n: nat, version: u64, tx: TxId)
    requires B.Sound(b) && n < |b.order| && Clear(data, b, version)
    ensures !S.HasVersion(S.VersionsOf(Install(data, B.Ops(b)[..n], version, tx), B.Ops(b)[n].key), version)
  {
    OpsOnePerKey(b);
    OpsClear(data, b, version);
    PrefixNeverConflicts(data, B.Ops(b), n, version, tx);
  }

  // ---------------------------------------------------------------- the log as versions

  lemma StoodPrefix(log: seq<Applied>, n: nat)
    requires SoundLog(log) && AllStood(log) && n <= |log|
    ensures SoundLog(log[..n]) && AllStood(log[..n])
  {
    forall j | 0 <= j < n
      ensures Stands(log[..n][..j], log[..n][j].pledge) && log[..n][j].pledge.time <= log[..n][j].at
    {
      assert log[..n][..j] == log[..j];
    }
  }

  lemma {:induction false} HistoryBelow(log: seq<Applied>, k: Key, version: int)
    requires forall i :: 0 <= i < |log| && Writes(log[i], k) ==> log[i].at < version
    ensures AllBelow(History(log, k), version)
  {
    if log != [] {
      HistoryBelow(log[..|log| - 1], k, version);
    }
  }

  /** The store is its history: each commit appended one entry to each of its keys. */
  lemma {:induction false} ReplayIsHistory(log: seq<Applied>, k: Key)
    requires SoundLog(log) && AllStood(log)
    ensures S.VersionsOf(Replay(log), k) == History(log, k)
  {
    if log != [] {
      var before := log[..|log| - 1];
      StoodPrefix(log, |log| - 1);
      forall key ensures S.VersionsOf(Replay(before), key) == History(before, key) {
        ReplayIsHistory(before, key);
      }
      InstalledIsHistory(log, Replay(before), k);
    }
  }

  /** The last commit, installed in the earlier history, gives the whole one. */
  lemma InstalledIsHistory(log: seq<Applied>, data: S.Data, k: Key)
    requires SoundLog(log) && AllStood(log) && log != []
    requires forall key :: S.VersionsOf(data, key) == History(log[..|log| - 1], key)
    ensures var e := log[|log| - 1];
            S.VersionsOf(Install(data, B.Ops(e.pledge.buf), e.at, e.tx), k) == History(log, k)
  {
    var e := log[|log| - 1];
    LastIsClear(log, data);
    InstallAll(data, e.pledge.buf, e.at, e.tx, k);
  }

  /** A store that is the earlier history has room for the last commit. */
  lemma LastIsClear(log: seq<Applied>, data: S.Data)
    requires AllStood(log) && log != []
    requires forall k :: S.VersionsOf(data, k) == History(log[..|log| - 1], k)
    ensures Clear(data, log[|log| - 1].pledge.buf, log[|log| - 1].at)
  {
    var e := log[|log| - 1];
    forall k | k in e.pledge.buf.writes ensures AllBelow(S.VersionsOf(data, k), e.at) {
      WritesAreBelow(log, k);
      HistoryBelow(log[..|log| - 1], k, e.at);
    }
  }

  /** The last commit is above every earlier one to its keys. */
  lemma WritesAreBelow(log: seq<Applied>, k: Key)
    requires AllStood(log) && log != [] && Writes(log[|log| - 1], k)
    ensures var before := log[..|log| - 1];
            forall i :: 0 <= i < |before| && Writes(before[i], k) ==> before[i].at < log[|log| - 1].at
  {
    assert Stands(log[..|log| - 1], log[|log| - 1].pledge);
  }

  /** Two commits to one key carry increasing times. */
  lemma WritersIncrease(log: seq<Applied>, i: nat, j: nat, k: Key)
    requires AllStood(log) && i < j < |log| && Writes(log[i], k) && Writes(log[j], k)
    ensures log[i].at < log[j].at
  {
    assert Stands(log[..j], log[j].pledge);
    assert log[..j][i] == log[i];
  }

  lemma {:induction false} HistoryWithout(log: seq<Applied>, n: nat, k: Key)
    requires n <= |log| && NoWriter(log, n, |log|, k)
    ensures History(log, k) == History(log[..n], k)
    decreases |log|
  {
    if n < |log| {
      HistoryWithout(log[..|log| - 1], n, k);
      assert log[..|log| - 1][..n] == log[..n];
    } else {
      assert log[..n] == log;
    }
  }

  /** A visible version belongs to the last commit that wrote the key. */
  lemma {:induction false} LastWriter(log: seq<Applied>, k: Key) returns (i: nat)
    requires S.Latest(History(log, k)).Some?
    ensures i < |log| && Writes(log[i], k) && !log[i].pledge.buf.writes[k].deleted
    ensures log[i].at == S.LatestVersion(History(log, k))
    ensures NoWriter(log, i + 1, |log|, k)
  {
    var n := |log| - 1;
    if Writes(log[n], k) {
      i := n;
    } else {
      i := LastWriter(log[..n], k);
    }
  }

  // ---------------------------------------------------------------- votes and later commits

  /** A vote outlives every commit that leaves its keys alone. */
  lemma StandsAppend(log: seq<Applied>, p: Pledge, e: Applied)
    requires Stands(log, p)
    requires forall k <- p.buf.writes :: !Writes(e, k)
    ensures Stands(log + [e], p)
  {
    assert forall n :: 0 <= n <= |log| ==> (log + [e])[..n] == log[..n];
  }

  lemma StoodAppend(log: seq<Applied>, e: Applied)
    requires SoundLog(log) && AllStood(log) && Stands(log, e.pledge) && e.pledge.time <= e.at
    ensures SoundLog(log + [e]) && AllStood(log + [e])
  {
    forall j | 0 <= j < |log| + 1
      ensures Stands((log + [e])[..j], (log + [e])[j].pledge) && (log + [e])[j].pledge.time <= (log + [e])[j].at
    {
      assert (log + [e])[..j] == log[..j];
      assert log[..|log|] == log;
    }
  }

  // ---------------------------------------------------------------- the steps

  lemma FreshInv(s: Site)
    requires Fresh(s)
    ensures Inv(s)
  {
  }

  /** A step leaves a transaction alone. */
  ghost predicate SameFor(s: Site, s': Site, t: TxId) {
    && (t in s.st.buffers <==> t in s'.st.buffers)
    && (t in s.st.buffers ==> s'.st.buffers[t] == s.st.buffers[t])
    && (t in s.st.status <==> t in s'.st.status)
    && (t in s.st.status ==> s'.st.status[t] == s.st.status[t])
    && (t in s.pledges <==> t in s'.pledges)
    && (t in s.pledges ==> s'.pledges[t] == s.pledges[t])
    && MarksOf(s', t) == MarksOf(s, t)
    && L.Held(s'.st.locks, t) == L.Held(s.st.locks, t)
  }

  lemma SettledFrame(s: Site, s': Site, t: TxId)
    requires Settled(s, t) && SameFor(s, s', t)
    requires s'.log == s.log && s.st.ts <= s'.st.ts
    ensures Settled(s', t)
  {
  }

  lemma OneMoved(s: Site, s': Site, tx: TxId)
    requires Inv(s)
    requires s'.log == s.log && s'.st.data == s.st.data && s.st.ts <= s'.st.ts
    requires L.Agree(s'.st.locks)
    requires forall t :: t != tx ==> SameFor(s, s', t)
    requires Settled(s', tx)
    ensures Inv(s')
  {
    forall t ensures Settled(s', t) {
      assert Settled(s, t);
      if t != tx {
        SettledFrame(s, s', t);
      }
    }
  }

  lemma StartLeavesOthers(s: Site, tx: TxId, t: TxId)
    requires t != tx
    ensures SameFor(s, Start(s, tx), t)
  {
  }

  lemma StartKeeps(s: Site, tx: TxId)
    requires Inv(s) && !IsPrepared(s, tx)
    ensures Inv(Start(s, tx))
  {
    var s' := Start(s, tx);
    assert Settled(s, tx);
    forall t | t != tx ensures SameFor(s, s', t) {
      StartLeavesOthers(s, tx, t);
    }
    OneMoved(s, s', tx);
  }

  lemma ReadKeeps(s: Site, tx: TxId, key: Key, snapshot: u64, now: u64)
    requires Inv(s) && !IsPrepared(s, tx) && Hlc.TickFits(s.st.ts, now)
    ensures Inv(Read(s, tx, key, snapshot, now))
  {
    if tx in s.st.buffers {
      var s' := Read(s, tx, key, snapshot, now);
      Hlc.TickGrowsIff(s.st.ts, now);
      assert Settled(s, tx);
      ReadLeavesWrites(s, tx, key, snapshot, now);
      forall t | t != tx ensures SameFor(s, s', t) {
        ReadLeavesOthers(s, tx, key, snapshot, now, t);
      }
      OneMoved(s, s', tx);
    }
  }

  lemma ReadLeavesOthers(s: Site, tx: TxId, key: Key, snapshot: u64, now: u64, t: TxId)
    requires tx in s.st.buffers && B.Sound(s.st.buffers[tx]) && t != tx
    ensures SameFor(s, Read(s, tx, key, snapshot, now), t)
  {
    ReadLeavesWrites(s, tx, key, snapshot, now);
  }

  lemma ReadLeavesWrites(s: Site, tx: TxId, key: Key, snapshot: u64, now: u64)
    requires tx in s.st.buffers && B.Sound(s.st.buffers[tx])
    ensures var st := OnRead(s.st, tx, key, snapshot, now).0;
            && tx in st.buffers && B.Sound(st.buffers[tx]) && st.buffers[tx].writes == s.st.buffers[tx].writes
            && (st.ts == s.st.ts || st.ts == Hlc.TickTs(s.st.ts, now))
            && st == s.st.(buffers := s.st.buffers[tx := st.buffers[tx]], ts := st.ts)
  {
    var b := s.st.buffers[tx];
    B.RecordReadSound(b, B.ReadRecord(key, 0, false));
    match S.GetAt(S.VersionsOf(s.st.data, key), snapshot) {
      case Err(_) =>
      case Ok(e) => B.RecordReadSound(b, B.ReadRecord(key, e.version, true));
    }
  }

  /** A buffered write carries the latest version of its moment, and nothing else is written. */
  lemma WriteKeeps(s: Site, tx: TxId, key: Key, value: Text, deleted: bool, now: u64)
    requires Inv(s) && !IsPrepared(s, tx) && Hlc.TickFits(s.st.ts, now)
    ensures Inv(Write(s, tx, key, value, deleted, now))
    ensures tx in s.st.buffers ==>
              var s' := Write(s, tx, key, value, deleted, now);
              && tx in s'.st.buffers && s'.log == s.log && s'.st.data == s.st.data
              && s'.st.buffers[tx].writes ==
                 s.st.buffers[tx].writes[key := B.WriteOp(key, value, deleted, VersionAt(s.log, |s.log|, key))]
  {
    if tx in s.st.buffers {
      var s' := Write(s, tx, key, value, deleted, now);
      CurrentVersion(s, key);
      WriteShape(s, tx, key, value, deleted, now);
      Hlc.TickGrowsIff(s.st.ts, now);
      WriteRemembers(s, tx, key, value, deleted, now);
      forall t | t != tx ensures SameFor(s, s', t) {
        WriteLeavesOthers(s, tx, key, value, deleted, now, t);
      }
      OneMoved(s, s', tx);
    }
  }

  lemma WriteLeavesOthers(s: Site, tx: TxId, key: Key, value: Text, deleted: bool, now: u64, t: TxId)
    requires tx in s.st.buffers && t != tx
    ensures SameFor(s, Write(s, tx, key, value, deleted, now), t)
  {
  }

  lemma WriteRemembers(s: Site, tx: TxId, key: Key, value: Text, deleted: bool, now: u64)
    requires Inv(s) && tx in s.st.buffers && !IsPrepared(s, tx)
    ensures Settled(Write(s, tx, key, value, deleted, now), tx)
  {
    assert Settled(s, tx);
    CurrentVersion(s, key);
    WriteShape(s, tx, key, value, deleted, now);
    NewestRemembered(s, Write(s, tx, key, value, deleted, now), tx,
                     B.WriteOp(key, value, deleted, VersionAt(s.log, |s.log|, key)));
  }

  lemma CurrentVersion(s: Site, key: Key)
    requires Grounded(s)
    ensures S.LatestVersion(S.VersionsOf(s.st.data, key)) == VersionAt(s.log, |s.log|, key)
  {
    assert s.log[..|s.log|] == s.log;
    ReplayIsHistory(s.log, key);
  }

  lemma WriteShape(s: Site, tx: TxId, key: Key, value: Text, deleted: bool, now: u64)
    requires tx in s.st.buffers
    ensures var s' := Write(s, tx, key, value, deleted, now);
            var op := B.WriteOp(key, value, deleted, S.LatestVersion(S.VersionsOf(s.st.data, key)));
            && s'.log == s.log && tx in s'.st.buffers && s'.st.buffers[tx] == B.PutOp(s.st.buffers[tx], op)
            && MarksOf(s', tx) == MarksOf(s, tx)[key := |s.log|]
            && s'.st.locks == s.st.locks && s'.st.status == s.st.status && s'.pledges == s.pledges
  {
  }

  lemma NewestRemembered(s: Site, s': Site, tx: TxId, op: B.WriteOp)
    requires tx in s.st.buffers && B.Sound(s.st.buffers[tx]) && Remembers(s, tx)
    requires op.originalVersion == VersionAt(s.log, |s.log|, op.key) && s'.log == s.log
    requires tx in s'.st.buffers && s'.st.buffers[tx] == B.PutOp(s.st.buffers[tx], op)
    requires MarksOf(s', tx) == MarksOf(s, tx)[op.key := |s.log|]
    ensures B.Sound(s'.st.buffers[tx]) && Remembers(s', tx)
  {
    B.PutOpSound(s.st.buffers[tx], op);
  }

  /** An abort frees the transaction and leaves every other promise alone. */
  lemma AbortKeeps(s: Site, tx: TxId, now: u64)
    requires Inv(s) && Hlc.TickFits(s.st.ts, now)
    ensures Inv(Abort(s, tx, now))
    ensures var s' := Abort(s, tx, now);
            && tx !in s'.st.buffers && L.Held(s'.st.locks, tx) == map[] && !IsPrepared(s', tx)
  {
    Hlc.TickGrowsIff(s.st.ts, now);
    L.ReleaseLaw(s.st.locks, tx);
    forall t | t != tx ensures SameFor(s, Abort(s, tx, now), t) {
      AbortLeavesOthers(s, tx, now, t);
    }
    OneMoved(s, Abort(s, tx, now), tx);
  }

  // ---------------------------------------------------------------- voting

  lemma VoteStands(s: Site, tx: TxId, iso: Isolation, now: u64)
    requires Inv(s) && tx in s.st.buffers
    requires Hlc.TickFits(s.st.ts, now) && Validates(s.st.data, s.st.buffers[tx], iso)
    ensures Stands(s.log, Pledge(s.st.buffers[tx], iso, Hlc.TickTs(s.st.ts, now), |s.log|, MarksOf(s, tx)))
  {
    var b := s.st.buffers[tx];
    assert Settled(s, tx);
    assert s.log[..|s.log|] == s.log;
    Hlc.TickGrowsIff(s.st.ts, now);
    if iso == SI || iso == SER {
      forall k | k in b.writes ensures b.writes[k].originalVersion == VersionAt(s.log, |s.log|, k) {
        ReplayIsHistory(s.log, k);
        var i := OpOf(b, k);
        assert WriteCurrent(s.st.data, B.Ops(b)[i]);
      }
    }
    if iso == SER {
      forall k | k in b.readSet ensures ReadHolds(s.log, |s.log|, b.readSet[k]) {
        ReplayIsHistory(s.log, b.readSet[k].key);
      }
    }
  }

  lemma OrderLocks(b: B.Buf)
    requires B.Sound(b)
    ensures L.WriteLocked(map[], b.order) == map k | k in b.writes :: L.LockWrite
  {
  }

  /** What a prepare may leave behind: a COMMIT vote is a promise, an ABORT vote leaves
      the transaction with no buffer and no lock, even when some of its locks had been
      taken; nobody else notices either. */
  ghost predicate Answered(s: Site, tx: TxId, iso: Isolation, s': Site, ballot: Ballot) {
    && Inv(s')
    && (ballot.vote == VoteCommit ==>
          && tx in s.st.buffers && Promised(s', tx)
          && s'.pledges[tx] == Pledge(s.st.buffers[tx], iso, ballot.time, |s.log|, MarksOf(s, tx)))
    && (ballot.vote == VoteAbort ==>
          tx !in s'.st.buffers && L.Held(s'.st.locks, tx) == map[] && !IsPrepared(s', tx))
    && (forall t :: t != tx ==> SameFor(s, s', t))
  }

  /** A prepare of a transaction that has not voted COMMIT yet keeps the invariant. */
  lemma PrepareKeeps(s: Site, tx: TxId, iso: Isolation, now: u64)
    requires Inv(s) && !IsPrepared(s, tx) && Hlc.TickFits(s.st.ts, now)
    ensures var (s', ballot) := Prepare(s, tx, iso, now); Answered(s, tx, iso, s', ballot)
  {
    if tx !in s.st.buffers {
      assert Settled(s, tx);
    } else if s.st.buffers[tx].order == [] && s.st.buffers[tx].readSet == map[] {
      NothingToPrepare(s, tx, iso, now);
    } else {
      VoteKeeps(s, tx, iso, now);
    }
  }

  lemma NothingToPrepare(s: Site, tx: TxId, iso: Isolation, now: u64)
    requires Inv(s) && Hlc.TickFits(s.st.ts, now)
    requires tx in s.st.buffers && s.st.buffers[tx].order == [] && s.st.buffers[tx].readSet == map[]
    ensures var (s', ballot) := Prepare(s, tx, iso, now); Answered(s, tx, iso, s', ballot)
  {
    AbortKeeps(s, tx, now);
    forall t | t != tx ensures SameFor(s, Abort(s, tx, now), t) {
      AbortLeavesOthers(s, tx, now, t);
    }
    assert Prepare(s, tx, iso, now) == (Abort(s, tx, now), Ballot(VoteAbort, 0, Some(TxNoOps)));
  }

  /** The vote in terms of the checks on the store. */
  lemma VoteValidates(s: Site, tx: TxId, iso: Isolation, now: u64)
    requires Inv(s)
    ensures Prepare(s, tx, iso, now).1.vote == VoteCommit <==>
              && tx in s.st.buffers
              && (s.st.buffers[tx].writes != map[] || s.st.buffers[tx].readSet != map[])
              && (forall k <- s.st.buffers[tx].writes :: L.FreeFor(s.st.locks, tx, k))
              && Validates(s.st.data, s.st.buffers[tx], iso)
  {
    if tx in s.st.buffers {
      var b := s.st.buffers[tx];
      assert Settled(s, tx);
      L.AcquireAllLaw(s.st.locks, tx, b.order);
      NoOrderNoWrites(b);
    }
  }

  lemma NoOrderNoWrites(b: B.Buf)
    requires B.Sound(b)
    ensures b.order == [] <==> b.writes == map[]
  {
    if b.order != [] {
      assert b.order[0] in b.writes;
    }
    if b.writes != map[] {
      var k :| k in b.writes;
      assert k in b.order;
    }
  }

  /** A shard votes COMMIT exactly when the transaction did something, nobody else holds
      a lock on a key it writes, at SI and SER every write saw the version that is still
      the latest, and at SER every recorded read is still current. The other levels have
      nothing more to meet. */
  lemma VoteIff(s: Site, tx: TxId, iso: Isolation, now: u64)
    requires Inv(s)
    ensures Prepare(s, tx, iso, now).1.vote == VoteCommit <==>
              && tx in s.st.buffers
              && (s.st.buffers[tx].writes != map[] || s.st.buffers[tx].readSet != map[])
              && (forall k <- s.st.buffers[tx].writes :: L.FreeFor(s.st.locks, tx, k))
              && (iso == SI || iso == SER ==> WritesCurrent(s.log, s.st.buffers[tx]))
              && (iso == SER ==> ReadsCurrent(s.log, s.st.buffers[tx]))
  {
    VoteValidates(s, tx, iso, now);
    if tx in s.st.buffers {
      assert Settled(s, tx);
      ChecksOverLog(s, s.st.buffers[tx], iso);
    }
  }

  /** Every write saw the version that is the latest now. */
  ghost predicate WritesCurrent(log: seq<Applied>, b: B.Buf) {
    forall k <- b.writes :: b.writes[k].originalVersion == VersionAt(log, |log|, k)
  }

  /** Every recorded read is what is visible now. */
  ghost predicate ReadsCurrent(log: seq<Applied>, b: B.Buf) {
    forall k <- b.readSet :: ReadHolds(log, |log|, b.readSet[k])
  }

  lemma ChecksOverLog(s: Site, b: B.Buf, iso: Isolation)
    requires Grounded(s) && B.Sound(b)
    ensures Validates(s.st.data, b, iso) <==>
              (iso == SI || iso == SER ==> WritesCurrent(s.log, b)) && (iso == SER ==> ReadsCurrent(s.log, b))
  {
    WritesOverLog(s, b);
    ReadsOverLog(s, b);
  }

  lemma WritesOverLog(s: Site, b: B.Buf)
    requires Grounded(s) && B.Sound(b)
    ensures (forall op <- B.Ops(b) :: WriteCurrent(s.st.data, op)) <==> WritesCurrent(s.log, b)
  {
    var ops := B.Ops(b);
    if forall op <- ops :: WriteCurrent(s.st.data, op) {
      forall k | k in b.writes ensures b.writes[k].originalVersion == VersionAt(s.log, |s.log|, k) {
        var i := OpOf(b, k);
        assert ops[i] in ops;
        CurrentVersion(s, k);
      }
    }
    if WritesCurrent(s.log, b) {
      forall op | op in ops ensures WriteCurrent(s.st.data, op) {
        var i :| 0 <= i < |ops| && ops[i] == op;
        CurrentVersion(s, op.key);
      }
    }
  }

  lemma ReadsOverLog(s: Site, b: B.Buf)
    requires Grounded(s) && B.Sound(b)
    ensures (forall k <- b.readSet :: ReadCurrent(s.st.data, b.readSet[k])) <==> ReadsCurrent(s.log, b)
  {
    assert s.log[..|s.log|] == s.log;
    forall k | k in b.readSet
      ensures ReadCurrent(s.st.data, b.readSet[k]) <==> ReadHolds(s.log, |s.log|, b.readSet[k])
    {
      ReplayIsHistory(s.log, k);
    }
  }

  lemma AbortLeavesOthers(s: Site, tx: TxId, now: u64, t: TxId)
    requires L.Agree(s.st.locks) && t != tx
    ensures SameFor(s, Abort(s, tx, now), t)
  {
    L.ReleaseLaw(s.st.locks, tx);
  }

  lemma VoteKeeps(s: Site, tx: TxId, iso: Isolation, now: u64)
    requires Inv(s) && !IsPrepared(s, tx) && Hlc.TickFits(s.st.ts, now)
    requires tx in s.st.buffers && !(s.st.buffers[tx].order == [] && s.st.buffers[tx].readSet == map[])
    ensures var (s', ballot) := Prepare(s, tx, iso, now); Answered(s, tx, iso, s', ballot)
  {
    var b := s.st.buffers[tx];
    var (s', ballot) := Prepare(s, tx, iso, now);
    var granted := L.AcquireAll(s.st.locks, tx, b.order).1;
    Hlc.TickGrowsIff(s.st.ts, now);
    if granted && Validates(s.st.data, b, iso) {
      Granted(s, tx, iso, now);
    } else {
      Refused(s, tx, iso, now);
    }
    forall t | t != tx ensures SameFor(s, s', t) {
      VoteLeavesOthers(s, tx, iso, now, t);
    }
    OneMoved(s, s', tx);
  }

  lemma VoteLeavesOthers(s: Site, tx: TxId, iso: Isolation, now: u64, t: TxId)
    requires L.Agree(s.st.locks) && t != tx
    requires tx in s.st.buffers && !(s.st.buffers[tx].order == [] && s.st.buffers[tx].readSet == map[])
    ensures SameFor(s, Prepare(s, tx, iso, now).0, t)
  {
    var locks := L.AcquireAll(s.st.locks, tx, s.st.buffers[tx].order).0;
    L.AcquireAllLaw(s.st.locks, tx, s.st.buffers[tx].order);
    L.ReleaseLaw(locks, tx);
    VoteShape(s, tx, iso, now);
    OnlyOne(s, Prepare(s, tx, iso, now).0, tx, t);
  }

  lemma OnlyOne(s: Site, s': Site, tx: TxId, t: TxId)
    requires t != tx && s'.marks == s.marks && L.Held(s'.st.locks, t) == L.Held(s.st.locks, t)
    requires s'.st.buffers == s.st.buffers || s'.st.buffers == s.st.buffers - {tx}
    requires tx in s'.st.status && s'.st.status == s.st.status[tx := s'.st.status[tx]]
    requires s'.pledges == s.pledges || (tx in s'.pledges && s'.pledges == s.pledges[tx := s'.pledges[tx]])
    ensures SameFor(s, s', t)
  {
  }

  /** The state a vote leaves, in one piece. */
  lemma VoteShape(s: Site, tx: TxId, iso: Isolation, now: u64)
    requires tx in s.st.buffers && !(s.st.buffers[tx].order == [] && s.st.buffers[tx].readSet == map[])
    ensures var b, time := s.st.buffers[tx], Hlc.TickTs(s.st.ts, now);
            var (locks, granted) := L.AcquireAll(s.st.locks, tx, b.order);
            Prepare(s, tx, iso, now) ==
            if granted && Validates(s.st.data, b, iso) then
              (s.(st := s.st.(locks := locks, ts := time, status := s.st.status[tx := T.TxState(T.Prepared, time)]),
                  pledges := s.pledges[tx := Pledge(b, iso, time, |s.log|, MarksOf(s, tx))]),
               Ballot(VoteCommit, time, None))
            else
              (s.(st := s.st.(locks := L.Release(locks, tx), ts := time, buffers := s.st.buffers - {tx},
                              status := s.st.status[tx := T.TxState(T.Aborted, 0)])),
               Ballot(VoteAbort, 0, None))
  {
    var status, time := s.st.status, Hlc.TickTs(s.st.ts, now);
    var running := status[tx := T.TxState(T.Running, 0)];
    assert running[tx := T.TxState(T.Prepared, time)] == status[tx := T.TxState(T.Prepared, time)];
    assert running[tx := T.TxState(T.Aborted, 0)] == status[tx := T.TxState(T.Aborted, 0)];
  }

  lemma Granted(s: Site, tx: TxId, iso: Isolation, now: u64)
    requires Inv(s) && !IsPrepared(s, tx) && Hlc.TickFits(s.st.ts, now)
    requires tx in s.st.buffers && !(s.st.buffers[tx].order == [] && s.st.buffers[tx].readSet == map[])
    requires L.AcquireAll(s.st.locks, tx, s.st.buffers[tx].order).1 && Validates(s.st.data, s.st.buffers[tx], iso)
    ensures var (s', ballot) := Prepare(s, tx, iso, now);
            && ballot == Ballot(VoteCommit, Hlc.TickTs(s.st.ts, now), None)
            && L.Agree(s'.st.locks) && Promised(s', tx) && Settled(s', tx)
            && s'.pledges[tx] == Pledge(s.st.buffers[tx], iso, ballot.time, |s.log|, MarksOf(s, tx))
            && s'.log == s.log && s'.st.data == s.st.data && s'.st.ts == ballot.time
  {
    assert Settled(s, tx);
    L.AcquireAllLaw(s.st.locks, tx, s.st.buffers[tx].order);
    OrderLocks(s.st.buffers[tx]);
    VoteStands(s, tx, iso, now);
  }

  lemma Refused(s: Site, tx: TxId, iso: Isolation, now: u64)
    requires Inv(s) && !IsPrepared(s, tx)
    requires tx in s.st.buffers && !(s.st.buffers[tx].order == [] && s.st.buffers[tx].readSet == map[])
    requires !(L.AcquireAll(s.st.locks, tx, s.st.buffers[tx].order).1 && Validates(s.st.data, s.st.buffers[tx], iso))
    ensures var (s', ballot) := Prepare(s, tx, iso, now);
            && ballot == Ballot(VoteAbort, 0, None)
            && L.Agree(s'.st.locks) && Settled(s', tx)
            && tx !in s'.st.buffers && L.Held(s'.st.locks, tx) == map[] && !IsPrepared(s', tx)
            && s'.log == s.log && s'.st.data == s.st.data && s'.st.ts == Hlc.TickTs(s.st.ts, now)
  {
    var locks := L.AcquireAll(s.st.locks, tx, s.st.buffers[tx].order).0;
    L.AcquireAllLaw(s.st.locks, tx, s.st.buffers[tx].order);
    L.ReleaseLaw(locks, tx);
  }

  // ---------------------------------------------------------------- committing

  /** Two promised transactions write different keys. */
  lemma PromisesDisjoint(s: Site, tx: TxId, t: TxId, k: Key)
    requires L.Agree(s.st.locks) && Promised(s, tx) && Promised(s, t) && t != tx
    requires k in s.pledges[tx].buf.writes
    ensures k !in s.pledges[t].buf.writes
  {
    assert L.KeyAgrees(s.st.locks, k);
    assert k in L.Held(s.st.locks, tx) && L.Held(s.st.locks, tx)[k] == L.LockWrite;
  }

  lemma CommitState(s: Site, tx: TxId, at: u64, now: u64)
    requires L.Agree(s.st.locks) && Promised(s, tx)
    ensures var (s', error) := Commit(s, tx, at, now);
            && error == None
            && s'.log == s.log + [Applied(tx, at, s.pledges[tx])]
            && s'.st.data == Install(s.st.data, B.Ops(s.pledges[tx].buf), at, tx)
            && s'.st.ts == Hlc.UpdateTs(s.st.ts, at, now)
            && s'.st.status == s.st.status[tx := T.TxState(T.Committed, s.pledges[tx].time)]
            && tx !in s'.st.buffers && L.Held(s'.st.locks, tx) == map[] && L.Agree(s'.st.locks)
  {
    L.ReleaseLaw(s.st.locks, tx);
  }

  lemma CommitLeavesOthers(s: Site, tx: TxId, at: u64, now: u64, t: TxId)
    requires L.Agree(s.st.locks) && t != tx
    ensures SameFor(s, Commit(s, tx, at, now).0, t)
  {
    L.ReleaseLaw(s.st.locks, tx);
  }

  lemma CommitGrounded(s: Site, tx: TxId, at: u64, now: u64)
    requires Inv(s) && Promised(s, tx)
    requires s.pledges[tx].time <= at && Hlc.UpdateFits(s.st.ts, at, now)
    ensures Grounded(Commit(s, tx, at, now).0)
  {
    CommitState(s, tx, at, now);
    Hlc.UpdateGrowsIff(s.st.ts, at, now);
    GroundedAppend(s, Commit(s, tx, at, now).0, Applied(tx, at, s.pledges[tx]));
  }

  lemma GroundedAppend(s: Site, s': Site, e: Applied)
    requires Grounded(s) && Stands(s.log, e.pledge) && e.pledge.time <= e.at
    requires s'.log == s.log + [e] && s'.st.data == Install(s.st.data, B.Ops(e.pledge.buf), e.at, e.tx)
    requires s'.st.ts > Max(s.st.ts, e.at)
    ensures Grounded(s')
  {
    StoodAppend(s.log, e);
    InstallKeepsOrder(s.st.data, B.Ops(e.pledge.buf), e.at, e.tx);
    assert s'.log[..|s'.log| - 1] == s.log;
  }

  lemma OthersSettled(s: Site, s': Site, tx: TxId, e: Applied, t: TxId)
    requires Inv(s) && Promised(s, tx) && t != tx && SameFor(s, s', t)
    requires e.pledge == s.pledges[tx] && s'.log == s.log + [e] && s.st.ts <= s'.st.ts
    ensures Settled(s', t)
  {
    assert Settled(s, t);
    assert forall n :: 0 <= n <= |s.log| ==> s'.log[..n] == s.log[..n];
    if IsPrepared(s, t) {
      forall k | k in s.pledges[t].buf.writes ensures !Writes(e, k) {
        if Writes(e, k) {
          PromisesDisjoint(s, tx, t, k);
        }
      }
      StandsAppend(s.log, s.pledges[t], e);
    }
  }

  /** A commit of a promised transaction at or above its prepare time is applied in
      full and adds itself to the log; every other promise still stands. */
  lemma CommitKeeps(s: Site, tx: TxId, at: u64, now: u64)
    requires Inv(s) && IsPrepared(s, tx)
    requires tx in s.pledges && s.pledges[tx].time <= at && Hlc.UpdateFits(s.st.ts, at, now)
    ensures var (s', error) := Commit(s, tx, at, now);
            && error == None && Inv(s')
            && s'.log == s.log + [Applied(tx, at, s.pledges[tx])]
            && tx !in s'.st.buffers && L.Held(s'.st.locks, tx) == map[] && !IsPrepared(s', tx)
  {
    var s' := Commit(s, tx, at, now).0;
    assert Settled(s, tx);
    CommitState(s, tx, at, now);
    CommitGrounded(s, tx, at, now);
    Hlc.UpdateGrowsIff(s.st.ts, at, now);
    forall t ensures Settled(s', t) {
      if t != tx {
        CommitLeavesOthers(s, tx, at, now, t);
        OthersSettled(s, s', tx, Applied(tx, at, s.pledges[tx]), t);
      }
    }
  }

  /** The store's verdicts that a commit ignores are all "no conflict": each write is
      above every version of its key and is appended. */
  lemma CommitAppends(s: Site, tx: TxId, at: u64)
    requires Inv(s) && IsPrepared(s, tx)
    requires tx in s.pledges && s.pledges[tx].time <= at
    ensures tx in s.st.buffers && Clear(s.st.data, s.st.buffers[tx], at)
    ensures var ops := B.Ops(s.st.buffers[tx]);
            && (forall n :: 0 <= n < |ops| ==>
                 !S.HasVersion(S.VersionsOf(Install(s.st.data, ops[..n], at, tx), ops[n].key), at))
            && (forall k :: S.VersionsOf(Install(s.st.data, ops, at, tx), k) ==
                            S.VersionsOf(s.st.data, k) + AddedTo(s.st.buffers[tx], k, at, tx))
  {
    assert Settled(s, tx);
    var b := s.st.buffers[tx];
    forall k | k in b.writes ensures AllBelow(S.VersionsOf(s.st.data, k), at) {
      ReplayIsHistory(s.log, k);
      HistoryBelow(s.log, k, at);
    }
    forall n | 0 <= n < |b.order|
      ensures !S.HasVersion(S.VersionsOf(Install(s.st.data, B.Ops(b)[..n], at, tx), B.Ops(b)[n].key), at)
    {
      InstallNeverConflicts(s.st.data, b, n, at, tx);
    }
    forall k ensures S.VersionsOf(Install(s.st.data, B.Ops(b), at, tx), k) ==
                     S.VersionsOf(s.st.data, k) + AddedTo(b, k, at, tx)
    {
      InstallAll(s.st.data, b, at, tx, k);
    }
  }
}
