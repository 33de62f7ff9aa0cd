/** What the system promises in every reachable state. */
module Guarantees {
  import opened Basics
  import S = Store
  import L = Locks
  import B = Buffer
  import T = TxStatus
  import SI = SiteInvariant
  import I = Isolation
  import Shard
  import Site
  import opened Cluster
  import opened ClusterInvariant

  // ---------------------------------------------------------------- atomic commitment

  /** No shard commits a transaction unless every involved shard voted COMMIT, and then
      at a time after each of their prepare times. */
  lemma CommitNeedsEveryVote(c: State, tx: TxId, s: ShardId)
    requires Reachable(c) && s in c.sites && HasStatus(c.sites[s], tx, T.Committed)
    ensures tx in c.coords && c.coords[tx].phase.Committed? && s in c.coords[tx].involved
    ensures forall r <- c.coords[tx].involved ::
              && r in c.sites && tx in c.sites[r].pledges
              && c.sites[r].pledges[tx].time < c.coords[tx].phase.at
  {
    ReachableInv(c);
    assert tx !in c.coords ==> Unknown(c.sites[s], tx);
    assert Pair(c, tx, s) && RecordsTrue(c, tx, s) && CoordTrue(c, tx);
    forall r | r in c.coords[tx].involved
      ensures r in c.sites && tx in c.sites[r].pledges && c.sites[r].pledges[tx].time < c.coords[tx].phase.at
    {
      assert Pair(c, tx, r);
      assert DecisionTrue(c, tx, r) && VotesTrue(c, tx, r);
    }
  }

  /** In one state no two shards have decided a transaction differently. */
  lemma SameOutcome(c: State, tx: TxId, s: ShardId, r: ShardId)
    requires Inv(c) && s in c.sites && r in c.sites
    requires HasStatus(c.sites[s], tx, T.Committed)
    ensures !HasStatus(c.sites[r], tx, T.Aborted)
  {
    assert tx !in c.coords ==> Unknown(c.sites[s], tx);
    assert Pair(c, tx, s) && Pair(c, tx, r);
    assert RecordsTrue(c, tx, s) && RecordsTrue(c, tx, r) && DecisionTrue(c, tx, r);
  }

  /** No two shards ever decide a transaction differently: what one has decided in one
      state and another in any later state agree, and neither ever changes. */
  lemma Agreement(c: State, actions: seq<Action>, tx: TxId, s: ShardId, r: ShardId, earlier: T.Status, later: T.Status)
    requires Reachable(c) && Legal(c, actions) && s in c.sites && r in Run(c, actions).sites
    requires Final(earlier) && Final(later)
    requires HasStatus(c.sites[s], tx, earlier) && HasStatus(Run(c, actions).sites[r], tx, later)
    ensures earlier == later
  {
    ReachableInv(c);
    RunKeeps(c, actions);
    FinalThroughout(c, actions, tx, s, earlier);
    if earlier == T.Committed {
      SameOutcome(Run(c, actions), tx, s, r);
    } else if later == T.Committed {
      SameOutcome(Run(c, actions), tx, r, s);
    }
  }

  predicate Final(status: T.Status) {
    status == T.Committed || status == T.Aborted
  }

  lemma FinalStays(c: State, a: Action, tx: TxId, s: ShardId, status: T.Status)
    requires Inv(c) && Enabled(c, a) && s in c.sites && Final(status) && HasStatus(c.sites[s], tx, status)
    ensures s in Next(c, a).sites && HasStatus(Next(c, a).sites[s], tx, status)
  {
    if !Settles(a, tx, s) {
      LeavesRecords(c, a, tx, s);
    } else if a.Commit? {
      CommitPremises(c, tx, s, a.at);
    } else {
      assert DoAbort(tx, s).tx in c.coords;
      assert Pair(c, tx, s);
      assert RecordsTrue(c, tx, s) && DecisionTrue(c, tx, s);
    }
  }

  lemma {:induction false} FinalThroughout(c: State, actions: seq<Action>, tx: TxId, s: ShardId, status: T.Status)
    requires Inv(c) && Legal(c, actions) && s in c.sites && Final(status) && HasStatus(c.sites[s], tx, status)
    ensures s in Run(c, actions).sites && HasStatus(Run(c, actions).sites[s], tx, status)
    decreases |actions|
  {
    if actions != [] {
      FinalStays(c, actions[0], tx, s, status);
      NextKeeps(c, actions[0]);
      FinalThroughout(Next(c, actions[0]), actions[1..], tx, s, status);
    }
  }

  /** A commit message that arrives is never refused: the shard still has the buffer it
      voted on, applies exactly that, and none of its writes meets a version conflict. */
  lemma CommitNeverRefused(c: State, tx: TxId, s: ShardId, at: u64, now: u64)
    requires Reachable(c) && CanCommit(c, tx, s, at, now)
    ensures var site := c.sites[s];
            && tx in site.pledges && tx in site.st.buffers && site.st.buffers[tx] == site.pledges[tx].buf
            && Site.Commit(site, tx, at, now).1 == None
            && AfterCommit(c, tx, s, at, now).sites[s].log == site.log + [Site.Applied(tx, at, site.pledges[tx])]
    ensures var site, b := c.sites[s], c.sites[s].st.buffers[tx];
            && (forall k <- b.writes :: SI.AllBelow(S.VersionsOf(site.st.data, k), at))
            && (forall n :: 0 <= n < |B.Ops(b)| ==>
                 !S.HasVersion(S.VersionsOf(Shard.Install(site.st.data, B.Ops(b)[..n], at, tx), B.Ops(b)[n].key), at))
            && (forall k :: S.VersionsOf(AfterCommit(c, tx, s, at, now).sites[s].st.data, k) ==
                            S.VersionsOf(site.st.data, k) + SI.AddedTo(b, k, at, tx))
  {
    ReachableInv(c);
    CommitPremises(c, tx, s, at);
    var site := c.sites[s];
    assert Site.Settled(site, tx);
    SI.CommitState(site, tx, at, now);
    SI.CommitAppends(site, tx, at);
  }

  /** A promise, with everything that backs it. */
  ghost predicate Holds(site: Site.Site, tx: TxId, p: Site.Pledge) {
    && Site.IsPrepared(site, tx) && site.st.status[tx].prepareTime == p.time
    && tx in site.pledges && site.pledges[tx] == p
    && tx in site.st.buffers && site.st.buffers[tx] == p.buf
    && L.Held(site.st.locks, tx) == (map k | k in p.buf.writes :: L.LockWrite)
  }

  /** The router's own outcome reaches the shard. */
  predicate Settles(a: Action, tx: TxId, s: ShardId) {
    (a.Commit? || a.Abort?) && a.tx == tx && a.shard == s
  }

  /** From its COMMIT vote until the router's own commit or abort reaches the shard,
      nothing in a run takes a transaction's buffer, locks or prepare time away. */
  lemma PromiseKept(c: State, actions: seq<Action>, tx: TxId, s: ShardId)
    requires Reachable(c) && Legal(c, actions) && s in c.sites && Site.IsPrepared(c.sites[s], tx)
    requires forall a <- actions :: !Settles(a, tx, s)
    ensures tx in c.sites[s].pledges && s in Run(c, actions).sites
    ensures var p := c.sites[s].pledges[tx]; Holds(c.sites[s], tx, p) && Holds(Run(c, actions).sites[s], tx, p)
  {
    ReachableInv(c);
    HoldsNow(c.sites[s], tx);
    HoldsThroughout(c, actions, tx, s, c.sites[s].pledges[tx]);
  }

  lemma HoldsNow(site: Site.Site, tx: TxId)
    requires Site.Inv(site) && Site.IsPrepared(site, tx)
    ensures tx in site.pledges && Holds(site, tx, site.pledges[tx])
  {
    assert Site.Settled(site, tx);
  }

  lemma {:induction false} HoldsThroughout(c: State, actions: seq<Action>, tx: TxId, s: ShardId, p: Site.Pledge)
    requires Inv(c) && Legal(c, actions) && s in c.sites && Holds(c.sites[s], tx, p)
    requires forall a <- actions :: !Settles(a, tx, s)
    ensures s in Run(c, actions).sites && Holds(Run(c, actions).sites[s], tx, p)
    decreases |actions|
  {
    if actions != [] {
      var c' := Next(c, actions[0]);
      LeavesRecords(c, actions[0], tx, s);
      NextKeeps(c, actions[0]);
      HoldsNow(c'.sites[s], tx);
      HoldsThroughout(c', actions[1..], tx, s, p);
    }
  }

  lemma LeavesRecords(c: State, a: Action, tx: TxId, s: ShardId)
    requires Inv(c) && Enabled(c, a) && s in c.sites && tx in c.sites[s].st.status
    requires !Settles(a, tx, s)
    ensures s in Next(c, a).sites && SiteSame(c.sites[s], Next(c, a).sites[s], tx)
  {
    if a.Start? || a.Read? || a.Write? {
      CallsLeaveRecords(c, a, tx, s);
    } else if a.Prepare? {
      PrepareLeavesRecords(c, a, tx, s);
    } else if a.Commit? {
      CommitLeavesRecords(c, a, tx, s);
    } else if a.Abort? {
      AbortLeavesRecords(c, a, tx, s);
    } else {
      RouterLeavesSites(c, a);
    }
  }

  lemma RouterLeavesSites(c: State, a: Action)
    requires Enabled(c, a) && !a.Start? && !a.Read? && !a.Write? && !a.Prepare? && !a.Commit? && !a.Abort?
    ensures Next(c, a).sites == c.sites
  {
  }

  lemma CallsLeaveRecords(c: State, a: Action, tx: TxId, s: ShardId)
    requires Enabled(c, a) && s in c.sites && (a.Start? || a.Read? || a.Write?)
    ensures s in Next(c, a).sites && SiteSame(c.sites[s], Next(c, a).sites[s], tx)
  {
    match a {
      case Start(t, r, heard) => StartQuiet(c.sites[r], t, tx);
      case Read(t, r, key, now) => ReadQuiet(c.sites[r], t, key, c.coords[t].snapshot, now, tx);
      case Write(t, r, key, value, deleted, now) => WriteQuiet(c.sites[r], t, key, value, deleted, now, tx);
    }
  }

  lemma PrepareLeavesRecords(c: State, a: Action, tx: TxId, s: ShardId)
    requires Inv(c) && a.Prepare? && Enabled(c, a) && s in c.sites && tx in c.sites[s].st.status
    ensures s in Next(c, a).sites && SiteSame(c.sites[s], Next(c, a).sites[s], tx)
  {
    if a.shard == s {
      NotPromised(c, a.tx, s);
      PrepareOthers(c.sites[s], a.tx, c.coords[a.tx].iso, a.now, tx);
    }
  }

  lemma CommitLeavesRecords(c: State, a: Action, tx: TxId, s: ShardId)
    requires Inv(c) && a.Commit? && Enabled(c, a) && s in c.sites && (a.tx != tx || a.shard != s)
    ensures s in Next(c, a).sites && SiteSame(c.sites[s], Next(c, a).sites[s], tx)
  {
    if a.shard == s {
      CommitOthers(c.sites[s], a.tx, a.at, a.now, tx);
    }
  }

  lemma AbortLeavesRecords(c: State, a: Action, tx: TxId, s: ShardId)
    requires Inv(c) && a.Abort? && Enabled(c, a) && s in c.sites && (a.tx != tx || a.shard != s)
    ensures s in Next(c, a).sites && SiteSame(c.sites[s], Next(c, a).sites[s], tx)
  {
    if a.shard == s {
      SI.AbortLeavesOthers(c.sites[s], a.tx, a.now, tx);
      SameSite(c.sites[s], Site.Abort(c.sites[s], a.tx, a.now), tx);
    }
  }

  /** Locks never leak: whoever holds one voted COMMIT and was not told the outcome yet,
      still has its buffer, and holds exactly its write keys, all exclusively. */
  lemma NoLockLeak(c: State, tx: TxId, s: ShardId)
    requires Reachable(c) && s in c.sites && L.Held(c.sites[s].st.locks, tx) != map[]
    ensures var st := c.sites[s].st;
            && HasStatus(c.sites[s], tx, T.Prepared) && tx in st.buffers
            && L.Held(st.locks, tx) == (map k | k in st.buffers[tx].writes :: L.LockWrite)
            && forall k <- st.buffers[tx].writes :: L.FreeFor(st.locks, tx, k)
  {
    ReachableInv(c);
    HolderIsPromised(c.sites[s], tx);
  }

  lemma HolderIsPromised(site: Site.Site, tx: TxId)
    requires Site.Inv(site) && L.Held(site.st.locks, tx) != map[]
    ensures HasStatus(site, tx, T.Prepared) && tx in site.st.buffers
    ensures L.Held(site.st.locks, tx) == (map k | k in site.st.buffers[tx].writes :: L.LockWrite)
    ensures forall k <- site.st.buffers[tx].writes :: L.FreeFor(site.st.locks, tx, k)
  {
    assert Site.Settled(site, tx);
    forall k | k in site.st.buffers[tx].writes ensures L.FreeFor(site.st.locks, tx, k) {
      assert L.KeyAgrees(site.st.locks, k);
      assert L.Held(site.st.locks, tx)[k] == L.LockWrite;
    }
  }

  /** An abort vote, a commit and an abort each leave the transaction with nothing. */
  lemma OutcomeReleases(c: State, a: Action)
    requires Reachable(c) && Enabled(c, a)
    requires a.Commit? || a.Abort?
             || (a.Prepare?
                 && Site.Prepare(c.sites[a.shard], a.tx, c.coords[a.tx].iso, a.now).1.vote == Shard.VoteAbort)
    ensures var st := Next(c, a).sites[a.shard].st; a.tx !in st.buffers && L.Held(st.locks, a.tx) == map[]
  {
    ReachableInv(c);
    match a {
      case Commit(tx, s, at, now) =>
        CommitPremises(c, tx, s, at);
        SI.CommitKeeps(c.sites[s], tx, at, now);
      case Abort(tx, s, now) => SI.AbortKeeps(c.sites[s], tx, now);
      case Prepare(tx, s, now) =>
        NotPromised(c, tx, s);
        SI.PrepareKeeps(c.sites[s], tx, c.coords[tx].iso, now);
    }
  }

  // ---------------------------------------------------------------- isolation

  /** The theorems of module Isolation hold of every shard: its log justifies every
      commit in it, its store is that log, and no transaction is in it twice. */
  lemma LogsStand(c: State, s: ShardId)
    requires Reachable(c) && s in c.sites
    ensures var log := c.sites[s].log;
            && Site.SoundLog(log) && Site.AllStood(log) && c.sites[s].st.data == Site.Replay(log)
            && (forall i, j :: 0 <= i < j < |log| ==> log[i].tx != log[j].tx)
  {
    ReachableInv(c);
    var log := c.sites[s].log;
    forall i, j | 0 <= i < j < |log| ensures log[i].tx != log[j].tx {
      assert log[i].tx !in c.coords ==> Unknown(c.sites[s], log[i].tx);
      assert Pair(c, log[i].tx, s) && RecordsTrue(c, log[i].tx, s);
    }
  }

  /** A shard's version lists are its history, in ascending order. */
  lemma HistoryIsAscending(c: State, s: ShardId, k: Key)
    requires Inv(c) && s in c.sites
    ensures S.VersionsOf(c.sites[s].st.data, k) == Site.History(c.sites[s].log, k)
    ensures S.Ascending(Site.History(c.sites[s].log, k))
  {
    SI.ReplayIsHistory(c.sites[s].log, k);
  }

  /** In every reachable state a shard's latest visible values are those of a serial
      machine that ran the shard's commits one by one. */
  lemma StoreIsSerial(c: State, s: ShardId, k: Key)
    requires Reachable(c) && s in c.sites
    ensures I.Visible(S.VersionsOf(c.sites[s].st.data, k)) == I.Lookup(I.Serial(c.sites[s].log), k)
  {
    LogsStand(c, s);
    SI.ReplayIsHistory(c.sites[s].log, k);
    I.VisibleIsSerial(c.sites[s].log, k);
  }

  /** An SI or SER commit whose write saw version v > 0 at a shard: nobody committed the
      key there between that write and this commit, and nobody else with that v ever does. */
  lemma LostUpdateFreedom(c: State, s: ShardId, j: nat, k: Key)
    requires Reachable(c) && s in c.sites && j < |c.sites[s].log|
    requires var p := c.sites[s].log[j].pledge;
             I.Checked(p) && k in p.buf.writes && p.buf.writes[k].originalVersion != 0
    ensures var log := c.sites[s].log;
            && k in log[j].pledge.marks && Site.NoWriter(log, log[j].pledge.marks[k], j, k)
            && forall i :: 0 <= i < |log| && i != j && I.Checked(log[i].pledge) && Site.Writes(log[i], k) ==>
                 log[i].pledge.buf.writes[k].originalVersion != log[j].pledge.buf.writes[k].originalVersion
  {
    LogsStand(c, s);
    var log := c.sites[s].log;
    I.NoLostUpdate(log, j, k);
    forall i | 0 <= i < |log| && i != j && I.Checked(log[i].pledge) && Site.Writes(log[i], k)
      ensures log[i].pledge.buf.writes[k].originalVersion != log[j].pledge.buf.writes[k].originalVersion
    {
      if log[i].pledge.buf.writes[k].originalVersion != 0 {
        I.OneCommitPerVersion(log, if i < j then i else j, if i < j then j else i, k);
      }
    }
  }

  /** At each shard, the commit order is a serial order for the SER transactions, over the
      reads they recorded, the last of each key, if and only if each of those stays current
      between vote and commit: a version that was found is not written, a missing key that
      is written ends up deleted. */
  lemma SerializableIff(c: State, s: ShardId)
    requires Reachable(c) && s in c.sites
    ensures I.SerialOrder(c.sites[s].log) <==> I.ReadsStayCurrent(c.sites[s].log)
  {
    LogsStand(c, s);
    I.SerialOrderIff(c.sites[s].log);
  }

  // ---------------------------------------------------------------- snapshots

  lemma {:induction false} HistoryHas(log: seq<Site.Applied>, i: nat, k: Key) returns (n: nat)
    requires i < |log| && Site.Writes(log[i], k)
    ensures var vs := Site.History(log, k);
            n < |vs| && vs[n] == Shard.Entry(log[i].pledge.buf.writes[k], log[i].at, log[i].tx)
  {
    var last := |log| - 1;
    if i == last {
      n := |Site.History(log[..last], k)|;
    } else {
      n := HistoryHas(log[..last], i, k);
    }
  }

  lemma {:induction false} HistoryFrom(log: seq<Site.Applied>, k: Key, n: nat) returns (i: nat)
    requires n < |Site.History(log, k)|
    ensures i < |log| && Site.Writes(log[i], k)
    ensures Site.History(log, k)[n] == Shard.Entry(log[i].pledge.buf.writes[k], log[i].at, log[i].tx)
  {
    var last := |log| - 1;
    if n < |Site.History(log[..last], k)| {
      i := HistoryFrom(log[..last], k, n);
    } else {
      i := last;
    }
  }

  /** The commit time names one transaction. */
  lemma OneTxPerTime(c: State, tx: TxId, tx': TxId)
    requires Inv(c) && tx in c.coords && tx' in c.coords
    requires c.coords[tx].phase.Committed? && c.coords[tx'].phase.Committed?
    requires c.coords[tx].phase.at == c.coords[tx'].phase.at
    ensures tx == tx'
  {
    assert CoordTrue(c, tx) && CoordTrue(c, tx');
    var i :| 0 <= i < |c.timeline| && c.timeline[i] == Decided(tx, c.coords[tx].phase.at);
    var j :| 0 <= j < |c.timeline| && c.timeline[j] == Decided(tx', c.coords[tx'].phase.at);
    assert i == j;
  }

  /** A committed transaction's write is in the store of an involved shard, under the one
      commit time, exactly when its commit message has been applied there. */
  lemma WrittenIffApplied(c: State, tx: TxId, s: ShardId, k: Key)
    requires Reachable(c) && tx in c.coords && c.coords[tx].phase.Committed? && s in c.coords[tx].involved
    ensures s in c.sites && tx in c.sites[s].pledges
    ensures k in c.sites[s].pledges[tx].buf.writes ==>
              var at, site := c.coords[tx].phase.at, c.sites[s];
              S.Lookup(S.VersionsOf(site.st.data, k), at) ==
                if DoCommit(tx, s, at) in c.net then None
                else Some(Shard.Entry(site.pledges[tx].buf.writes[k], at, tx))
  {
    ReachableInv(c);
    assert CoordTrue(c, tx) && s in c.sites && Pair(c, tx, s);
    assert DecisionTrue(c, tx, s) && VotesTrue(c, tx, s) && RecordsTrue(c, tx, s);
    var at, site := c.coords[tx].phase.at, c.sites[s];
    if k in site.pledges[tx].buf.writes {
      SI.ReplayIsHistory(site.log, k);
      assert S.Ascending(S.VersionsOf(site.st.data, k));
      if DoCommit(tx, s, at) in c.net {
        NotYetWritten(c, tx, s, k);
      } else {
        EntryOfCommit(site.log, Site.Applied(tx, at, site.pledges[tx]), k);
      }
    }
  }

  lemma EntryOfCommit(log: seq<Site.Applied>, e: Site.Applied, k: Key)
    requires e in log && Site.Writes(e, k) && S.Ascending(Site.History(log, k))
    ensures S.Lookup(Site.History(log, k), e.at) == Some(Shard.Entry(e.pledge.buf.writes[k], e.at, e.tx))
  {
    var i :| 0 <= i < |log| && log[i] == e;
    var n := HistoryHas(log, i, k);
    S.LookupAt(Site.History(log, k), n);
  }

  lemma NotYetWritten(c: State, tx: TxId, s: ShardId, k: Key)
    requires Inv(c) && tx in c.coords && s in c.sites && c.coords[tx].phase.Committed?
    requires DoCommit(tx, s, c.coords[tx].phase.at) in c.net && s in c.coords[tx].involved
    ensures S.Lookup(Site.History(c.sites[s].log, k), c.coords[tx].phase.at) == None
  {
    var at, log := c.coords[tx].phase.at, c.sites[s].log;
    var vs := Site.History(log, k);
    if n :| 0 <= n < |vs| && vs[n].version == at {
      var i := HistoryFrom(log, k, n);
      var other := log[i].tx;
      assert other !in c.coords ==> Unknown(c.sites[s], other);
      assert Pair(c, other, s) && Pair(c, tx, s);
      assert RecordsTrue(c, other, s) && DecisionTrue(c, tx, s);
      OneTxPerTime(c, tx, other);
    }
  }

  /** Once every involved shard has applied it, a snapshot has all of a transaction's
      writes at or below it, each visible or superseded, or none of them. */
  lemma SnapshotAllOrNothing(c: State, tx: TxId, snapshot: u64, s: ShardId, k: Key)
    requires Reachable(c) && tx in c.coords && c.coords[tx].phase.Committed?
    requires forall r <- c.coords[tx].involved :: DoCommit(tx, r, c.coords[tx].phase.at) !in c.net
    requires s in c.coords[tx].involved
    ensures s in c.sites && tx in c.sites[s].pledges
    ensures k in c.sites[s].pledges[tx].buf.writes ==>
              var at := c.coords[tx].phase.at;
              match S.Floor(S.VersionsOf(c.sites[s].st.data, k), snapshot)
              case None => snapshot < at
              case Some(e) => if at <= snapshot then at <= e.version else e.version < at
  {
    WrittenIffApplied(c, tx, s, k);
    ReachableInv(c);
    if k in c.sites[s].pledges[tx].buf.writes {
      var vs := S.VersionsOf(c.sites[s].st.data, k);
      SI.ReplayIsHistory(c.sites[s].log, k);
      assert S.Ascending(vs);
      S.FloorIsGreatest(vs, snapshot);
    }
  }

  /** A snapshot is at or above a commit time if and only if the commit was decided
      before the snapshot was taken; the two are never equal. */
  lemma SnapshotCut(c: State, reader: TxId, writer: TxId) returns (began: nat, decided: nat)
    requires Reachable(c) && reader in c.coords && writer in c.coords && c.coords[writer].phase.Committed?
    ensures began < |c.timeline| && c.timeline[began] == Began(reader, c.coords[reader].snapshot)
    ensures decided < |c.timeline| && c.timeline[decided] == Decided(writer, c.coords[writer].phase.at)
    ensures c.coords[writer].phase.at != c.coords[reader].snapshot
    ensures c.coords[writer].phase.at < c.coords[reader].snapshot <==> decided < began
  {
    ReachableInv(c);
    assert CoordTrue(c, reader) && CoordTrue(c, writer);
    began :| 0 <= began < |c.timeline| && c.timeline[began] == Began(reader, c.coords[reader].snapshot);
    decided :| 0 <= decided < |c.timeline| && c.timeline[decided] == Decided(writer, c.coords[writer].phase.at);
  }

  /** Whatever the network did, a reader's snapshot shows nothing of a transaction that
      was decided after the reader began. */
  lemma LaterCommitsInvisible(c: State, reader: TxId, writer: TxId, s: ShardId, k: Key)
    requires Reachable(c) && reader in c.coords && writer in c.coords && c.coords[writer].phase.Committed?
    requires c.coords[reader].snapshot < c.coords[writer].phase.at && s in c.sites
    ensures match S.Floor(S.VersionsOf(c.sites[s].st.data, k), c.coords[reader].snapshot)
            case None => true
            case Some(e) => e.txId != writer
  {
    ReachableInv(c);
    var log, snapshot := c.sites[s].log, c.coords[reader].snapshot;
    SI.ReplayIsHistory(log, k);
    assert Pair(c, writer, s) && RecordsTrue(c, writer, s);
    if S.Floor(Site.History(log, k), snapshot).Some? {
      var n := FloorIn(Site.History(log, k), snapshot);
      var i := HistoryFrom(log, k, n);
    }
  }

  lemma {:induction false} FloorIn(vs: S.Versions, snapshot: u64) returns (n: nat)
    requires S.Floor(vs, snapshot).Some?
    ensures n < |vs| && S.Floor(vs, snapshot) == Some(vs[n]) && vs[n].version <= snapshot
  {
    if vs[|vs| - 1].version <= snapshot {
      n := |vs| - 1;
    } else {
      n := FloorIn(vs[..|vs| - 1], snapshot);
    }
  }
}
