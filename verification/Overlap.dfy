/** What the premise that calls for one transaction do not overlap is for: a client's
    abort during its commit call makes the shards disagree. */
module Overlap {
  import opened Basics
  import Hlc
  import T = TxStatus
  import R = Router
  import SI = SiteInvariant
  import Progress
  import Shard
  import Site
  import TwoShards
  import opened Cluster
  import opened ClusterInvariant
  import opened Solo

  /** A client's abort that arrives while a commit call of the same transaction is under
      way: the context is still there, so every involved shard is sent an abort, and the
      commit call, which looked the context up before, goes on. */
  function AbortMeanwhile(c: State, tx: TxId): State
    requires tx in c.coords
  {
    c.(net := c.net + set s | s in c.coords[tx].involved :: DoAbort(tx, s))
  }

  /** One shard has committed, the other has aborted and refuses the commit. */
  ghost predicate Disagree(c: State, tx: TxId, s: ShardId, r: ShardId, at: u64, now: u64) {
    && s in c.sites && HasStatus(c.sites[s], tx, T.Committed)
    && r in c.sites && HasStatus(c.sites[r], tx, T.Aborted)
    && DoCommit(tx, r, at) in c.net && Site.Commit(c.sites[r], tx, at, now).1 == Some(Shard.TxNotFound)
  }

  lemma CommittedSite(site: Site.Site, tx: TxId, at: u64, now: u64)
    requires Site.Inv(site) && Site.IsPrepared(site, tx)
    ensures HasStatus(Site.Commit(site, tx, at, now).0, tx, T.Committed)
  {
    assert Site.Settled(site, tx);
    SI.CommitState(site, tx, at, now);
  }

  lemma AbortedSite(site: Site.Site, tx: TxId, now': u64, at: u64, now: u64)
    requires Site.IsPrepared(site, tx)
    ensures HasStatus(Site.Abort(site, tx, now'), tx, T.Aborted)
    ensures Site.Commit(Site.Abort(site, tx, now'), tx, at, now).1 == Some(Shard.TxNotFound)
  {
  }

  // ---------------------------------------------------------------- during phase two

  /** Phase two is under way: one shard has not heard of the decision, another one has or
      has not. */
  ghost predicate MidCommit(c: State, tx: TxId, s: ShardId, r: ShardId) {
    && tx in c.coords && c.coords[tx].phase.Committed? && s != r && s in c.sites && r in c.sites
    && s in c.coords[tx].involved && r in c.coords[tx].involved && DoCommit(tx, r, c.coords[tx].phase.at) in c.net
  }

  /** The commit reaches a shard, if it has not done so yet. */
  ghost function CommitReaches(c: State, tx: TxId, s: ShardId, at: u64, now: u64): State
    requires DoCommit(tx, s, at) in c.net ==> CanCommit(c, tx, s, at, now)
  {
    if DoCommit(tx, s, at) in c.net then AfterCommit(c, tx, s, at, now) else c
  }

  /** The shard that has not heard of the decision can apply the abort, and every other
      one the commit: whichever of them heard of it before. */
  lemma OverlappingAbortDisagrees(c: State, tx: TxId, s: ShardId, r: ShardId, now: u64, now': u64) returns (c': State)
    requires Reachable(c) && MidCommit(c, tx, s, r)
    requires DoCommit(tx, s, c.coords[tx].phase.at) in c.net ==> Hlc.UpdateFits(TsOf(c, s), c.coords[tx].phase.at, now)
    requires Hlc.TickFits(TsOf(c, r), now')
    ensures var at, c1 := c.coords[tx].phase.at, AbortMeanwhile(c, tx);
            && (DoCommit(tx, s, at) in c1.net ==> CanCommit(c1, tx, s, at, now))
            && CanAbort(CommitReaches(c1, tx, s, at, now), tx, r, now')
            && c' == AfterAbort(CommitReaches(c1, tx, s, at, now), tx, r, now')
    ensures Disagree(c', tx, s, r, c.coords[tx].phase.at, now)
  {
    var at := c.coords[tx].phase.at;
    ReachableInv(c);
    CommitPremises(c, tx, r, at);
    AbortedSite(c.sites[r], tx, now', at, now);
    if DoCommit(tx, s, at) in c.net {
      CommitPremises(c, tx, s, at);
      CommittedSite(c.sites[s], tx, at, now);
    } else {
      assert Pair(c, tx, s) && DecisionTrue(c, tx, s);
    }
    c' := Delivered(c, tx, s, r, now, now');
  }

  lemma Delivered(c: State, tx: TxId, s: ShardId, r: ShardId, now: u64, now': u64) returns (c': State)
    requires MidCommit(c, tx, s, r)
    requires DoCommit(tx, s, c.coords[tx].phase.at) in c.net ==> Hlc.UpdateFits(TsOf(c, s), c.coords[tx].phase.at, now)
    requires Hlc.TickFits(TsOf(c, r), now')
    ensures var at, c1 := c.coords[tx].phase.at, AbortMeanwhile(c, tx);
            && (DoCommit(tx, s, at) in c1.net ==> CanCommit(c1, tx, s, at, now))
            && CanAbort(CommitReaches(c1, tx, s, at, now), tx, r, now')
            && c' == AfterAbort(CommitReaches(c1, tx, s, at, now), tx, r, now')
            && DoCommit(tx, r, at) in c'.net && s in c'.sites && r in c'.sites
            && c'.sites[s] ==
               (if DoCommit(tx, s, at) in c.net then Site.Commit(c.sites[s], tx, at, now).0 else c.sites[s])
            && c'.sites[r] == Site.Abort(c.sites[r], tx, now')
  {
    var at, c1 := c.coords[tx].phase.at, AbortMeanwhile(c, tx);
    assert DoAbort(tx, r) in c1.net;
    c' := AfterAbort(CommitReaches(c1, tx, s, at, now), tx, r, now');
  }

  // ---------------------------------------------------------------- during phase one

  /** Phase one is over: every involved shard has promised, and nothing is decided yet. */
  ghost predicate AllIn(c: State, tx: TxId, s: ShardId, r: ShardId) {
    && tx in c.coords && c.coords[tx].phase.Preparing? && c.coords[tx].results.Keys == c.coords[tx].involved
    && s != r && s in c.sites && r in c.sites && s in c.coords[tx].involved && r in c.coords[tx].involved
  }

  /** An abort that overlaps phase one and reaches a shard after its vote: the commit call
      decides to commit all the same, and the two shards disagree. */
  lemma OverlappingAbortBeforeDecision(c: State, tx: TxId, s: ShardId, r: ShardId, now1: u64, now2: u64, now3: u64)
    returns (c': State)
    requires Reachable(c) && AllIn(c, tx, s, r) && CanDecide(c, tx, now2) && Hlc.TickFits(TsOf(c, r), now1)
    requires Hlc.UpdateFits(TsOf(c, s), R.CommitTime(c.clock, c.coords[tx].results, now2), now3)
    ensures var at, c1 := R.CommitTime(c.clock, c.coords[tx].results, now2), AbortMeanwhile(c, tx);
            && CanAbort(c1, tx, r, now1) && CanDecide(AfterAbort(c1, tx, r, now1), tx, now2)
            && var c3 := AfterDecide(AfterAbort(c1, tx, r, now1), tx, now2);
               CanCommit(c3, tx, s, at, now3) && c' == AfterCommit(c3, tx, s, at, now3)
    ensures Disagree(c', tx, s, r, R.CommitTime(c.clock, c.coords[tx].results, now2), now3)
  {
    var at := R.CommitTime(c.clock, c.coords[tx].results, now2);
    ReachableInv(c);
    HeardIsPrepared(c, tx, s);
    HeardIsPrepared(c, tx, r);
    CommittedSite(c.sites[s], tx, at, now3);
    AbortedSite(c.sites[r], tx, now1, at, now3);
    c' := DecidedAnyway(c, tx, s, r, now1, now2, now3);
  }

  lemma HeardIsPrepared(c: State, tx: TxId, s: ShardId)
    requires Inv(c) && tx in c.coords && c.coords[tx].phase.Preparing? && s in c.coords[tx].results && s in c.sites
    ensures Site.Inv(c.sites[s]) && Site.IsPrepared(c.sites[s], tx)
  {
    assert Pair(c, tx, s) && VotesTrue(c, tx, s) && RecordsTrue(c, tx, s);
  }

  lemma DecidedAnyway(c: State, tx: TxId, s: ShardId, r: ShardId, now1: u64, now2: u64, now3: u64) returns (c': State)
    requires AllIn(c, tx, s, r) && CanDecide(c, tx, now2) && Hlc.TickFits(TsOf(c, r), now1)
    requires Hlc.UpdateFits(TsOf(c, s), R.CommitTime(c.clock, c.coords[tx].results, now2), now3)
    ensures var at, c1 := R.CommitTime(c.clock, c.coords[tx].results, now2), AbortMeanwhile(c, tx);
            && CanAbort(c1, tx, r, now1) && CanDecide(AfterAbort(c1, tx, r, now1), tx, now2)
            && var c3 := AfterDecide(AfterAbort(c1, tx, r, now1), tx, now2);
               && CanCommit(c3, tx, s, at, now3) && c' == AfterCommit(c3, tx, s, at, now3)
               && DoCommit(tx, r, at) in c'.net
               && s in c'.sites && c'.sites[s] == Site.Commit(c.sites[s], tx, at, now3).0
               && r in c'.sites && c'.sites[r] == Site.Abort(c.sites[r], tx, now1)
  {
    var at, c1 := R.CommitTime(c.clock, c.coords[tx].results, now2), AbortMeanwhile(c, tx);
    assert DoAbort(tx, r) in c1.net;
    var c2 := AfterAbort(c1, tx, r, now1);
    assert c2.coords == c.coords && c2.clock == c.clock;
    c' := AfterCommit(AfterDecide(c2, tx, now2), tx, s, at, now3);
  }

  // ---------------------------------------------------------------- such states are reached

  /** From any idle system with two shards the middle of phase two can be reached, */
  lemma MidCommitReached(c0: State, s: ShardId, r: ShardId, k: Key, v: Text) returns (c: State, t: TxId)
    requires Progress.Idle(c0) && s in c0.sites && r in c0.sites && s != r
    ensures Reachable(c) && MidCommit(c, t, s, r)
    ensures Hlc.UpdateFits(TsOf(c, s), c.coords[t].phase.at, 1) && Hlc.TickFits(TsOf(c, r), 1)
  {
    c, t := TwoShards.DecidedOnTwo(c0, s, r, k, v);
    SlowUpdate(0x1_0001, TwoShards.AT);
    SlowClock(0x1_0001);
  }

  /** and so can the end of phase one. */
  lemma AllInReached(c0: State, s: ShardId, r: ShardId, k: Key, v: Text) returns (c: State, t: TxId)
    requires Progress.Idle(c0) && s in c0.sites && r in c0.sites && s != r
    ensures Reachable(c) && AllIn(c, t, s, r) && CanDecide(c, t, 1) && Hlc.TickFits(TsOf(c, r), 1)
    ensures Hlc.UpdateFits(TsOf(c, s), R.CommitTime(c.clock, c.coords[t].results, 1), 1)
  {
    c, t := TwoShards.VotedOnTwo(c0, s, r, k, v);
    TwoShards.TwoTimes(s, r, 0x1_0001);
    assert c.coords[t].results.Keys == {s, r};
    SlowUpdate(0x1_0001, 0x1_0001);
    SlowUpdate(0x1_0001, 0x1_0002);
    SlowClock(0x1_0001);
  }
}
