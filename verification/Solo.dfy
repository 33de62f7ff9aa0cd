/** One transaction with one write on a shard where nothing else is pending: it votes
    COMMIT and commits, on the shard alone and through the whole cluster. */
module Solo {
  import opened Basics
  import Hlc
  import S = Store
  import L = Locks
  import B = Buffer
  import opened Shard
  import opened Site
  import opened SiteInvariant
  import C = Cluster
  import Runs

  ghost predicate Blank(s: Site) {
    Fresh(s) && s.st.ts == 0
  }

  function Op(k: Key, v: Text, deleted: bool): B.WriteOp {
    B.WriteOp(k, v, deleted, 0)
  }

  function One(op: B.WriteOp): B.Buf {
    B.Buf(map[op.key := op], [op.key], map[])
  }

  // ---------------------------------------------------------------- clocks in their first second

  /** A reading of the clock within the millisecond 1, with room left. */
  predicate Slow(ts: u64) {
    0x1_0000 <= ts < 0x1_FF00
  }

  ghost predicate Quiet(s: Site) {
    Inv(s) && (forall w :: !IsPrepared(s, w)) && Slow(s.st.ts)
  }

  lemma SlowClock(ts: u64)
    requires Slow(ts)
    ensures Hlc.TickFits(ts, 1) && Hlc.TickTs(ts, 1) == ts + 1
  {
    Hlc.TickIsNextTick(ts, 1);
  }

  lemma FirstTick()
    ensures Hlc.TickFits(0, 1) && Hlc.TickTs(0, 1) == 0x1_0000
  {
    Hlc.TickIsNextTick(0, 1);
  }

  lemma SlowUpdate(ts: u64, at: u64)
    requires Slow(ts) && Slow(at)
    ensures Hlc.UpdateFits(ts, at, 1) && Hlc.UpdateTs(ts, at, 1) == Max(ts, at) + 1
  {
    Hlc.UpdateExact(ts, at, 1);
  }

  /** The clocks of a round: the shard's tick, the router's update, the shard's update. */
  lemma SlowRound(clock: u64, ts: u64)
    requires Slow(clock) && Slow(ts) && clock < 0x1_FD00 && ts < 0x1_FC00
    ensures var time := ts + 1;
            var at := Max(clock, time) + 1;
            && Hlc.TickFits(ts, 1) && Hlc.TickTs(ts, 1) == time
            && Hlc.UpdateFits(clock, time, 1) && at == Hlc.UpdateTs(clock, time, 1)
            && Hlc.UpdateFits(time, at, 1) && Hlc.UpdateTs(time, at, 1) == at + 1
  {
    SlowClock(ts);
    SlowUpdate(clock, ts + 1);
    SlowUpdate(ts + 1, Max(clock, ts + 1) + 1);
  }

  // ---------------------------------------------------------------- on the shard

  /** A prepare ticks once and leaves the store and the log. */
  lemma PrepareShape(s: Site, t: TxId, iso: Isolation, now: u64)
    requires t in s.st.buffers
    ensures var s' := Prepare(s, t, iso, now).0;
            s'.log == s.log && s'.st.data == s.st.data && s'.st.ts == Hlc.TickTs(s.st.ts, now)
  {
  }

  lemma OnePut(op: B.WriteOp)
    ensures B.PutOp(B.EMPTY, op) == One(op)
  {
    assert [] + [op.key] == [op.key];
  }

  lemma OneOp(op: B.WriteOp)
    ensures B.Sound(One(op)) && B.Ops(One(op)) == [op]
  {
    assert [op.key][0] == op.key;
  }

  lemma OneValid(data: S.Data, op: B.WriteOp)
    requires S.LatestVersion(S.VersionsOf(data, op.key)) == op.originalVersion
    ensures Validates(data, One(op), SI)
  {
    OneOp(op);
    assert WriteCurrent(data, op);
  }

  /** With no promise pending nobody holds a lock. */
  lemma NoLocks(s: Site, t: TxId, k: Key)
    requires Quiet(s)
    ensures L.FreeFor(s.st.locks, t, k)
  {
    forall w ensures k !in L.Held(s.st.locks, w) {
      assert Settled(s, w) && !IsPrepared(s, w);
    }
  }

  /** A shard before and after the vote of such a transaction. */
  ghost predicate Voted(s: Site, s': Site, t: TxId, op: B.WriteOp) {
    && Inv(s') && s'.log == s.log && s'.st.ts == s.st.ts + 1 && IsPrepared(s', t)
    && t in s'.pledges && s'.pledges[t] == Pledge(One(op), SI, s.st.ts + 1, |s.log|, MarksOf(s, t))
    && forall w :: w != t ==> SameFor(s, s', w) && !IsPrepared(s', w)
  }

  /** A shard before and after its commit. */
  ghost predicate Finished(s: Site, s': Site, t: TxId, at: u64) {
    && Quiet(s') && s'.st.ts == at + 1
    && t in s.pledges && s'.log == s.log + [Applied(t, at, s.pledges[t])]
    && forall w :: w != t ==> SameFor(s, s', w)
  }

  /** A shard before the vote and after the commit. */
  ghost predicate Done(s: Site, s': Site, t: TxId, op: B.WriteOp, at: u64) {
    && Slow(s.st.ts) && Quiet(s') && s'.st.ts == at + 1
    && s'.log == s.log + [Applied(t, at, Pledge(One(op), SI, s.st.ts + 1, |s.log|, MarksOf(s, t)))]
    && forall w :: w != t ==> SameFor(s, s', w)
  }

  lemma VotedFinished(a: Site, b: Site, c: Site, t: TxId, op: B.WriteOp, at: u64)
    requires Slow(a.st.ts) && Voted(a, b, t, op) && Finished(b, c, t, at)
    ensures Done(a, c, t, op, at)
  {
    forall w | w != t ensures SameFor(a, c, w) {
      SameForBoth(a, b, c, w);
    }
  }

  lemma SameForBoth(a: Site, b: Site, c: Site, w: TxId)
    requires SameFor(a, b, w) && SameFor(b, c, w)
    ensures SameFor(a, c, w)
  {
  }

  /** The transaction's one write is pending and saw the version that is current. */
  ghost predicate Pending(s: Site, t: TxId, op: B.WriteOp) {
    && Quiet(s) && t in s.st.buffers && s.st.buffers[t] == One(op)
    && S.LatestVersion(S.VersionsOf(s.st.data, op.key)) == op.originalVersion
  }

  /** On a shard with no promise pending, one valid write is promised. */
  lemma SoloPrepare(s: Site, t: TxId, op: B.WriteOp)
    requires Pending(s, t, op)
    ensures Voted(s, Prepare(s, t, SI, 1).0, t, op)
    ensures Prepare(s, t, SI, 1).1 == Ballot(VoteCommit, s.st.ts + 1, None)
  {
    SlowClock(s.st.ts);
    OneValid(s.st.data, op);
    assert op.key in s.st.buffers[t].writes;
    forall k | k in s.st.buffers[t].writes ensures L.FreeFor(s.st.locks, t, k) {
      NoLocks(s, t, k);
    }
    VoteValidates(s, t, SI, 1);
    assert Prepare(s, t, SI, 1).1.vote == VoteCommit;
    PrepareKeeps(s, t, SI, 1);
    PrepareShape(s, t, SI, 1);
    var s' := Prepare(s, t, SI, 1).0;
    forall w | w != t ensures !IsPrepared(s', w) {
      assert SameFor(s, s', w) && !IsPrepared(s, w);
    }
  }

  lemma SoloFinish(s: Site, t: TxId, at: u64)
    requires Inv(s) && IsPrepared(s, t) && (forall w :: w != t ==> !IsPrepared(s, w))
    requires t in s.pledges && s.pledges[t].time == s.st.ts && Slow(s.st.ts) && s.st.ts < at < 0x1_FE00
    ensures Finished(s, Commit(s, t, at, 1).0, t, at)
  {
    var s' := Commit(s, t, at, 1).0;
    SlowUpdate(s.st.ts, at);
    CommitKeeps(s, t, at, 1);
    assert s'.st.ts == at + 1 by {
      assert Settled(s, t);
      CommitState(s, t, at, 1);
    }
    forall w | w != t ensures SameFor(s, s', w) {
      CommitLeavesOthers(s, t, at, 1, w);
    }
    forall w ensures !IsPrepared(s', w) {
      if w != t {
        assert SameFor(s, s', w) && !IsPrepared(s, w);
      }
    }
  }

  // ---------------------------------------------------------------- through the cluster

  /** The router knows a transaction that wrote on one shard, and no message is around. */
  ghost predicate OnOne(c: C.State, t: TxId, s: ShardId) {
    && c.net == {} && Slow(c.clock) && c.clock < 0x1_FD00 && s in c.sites
    && t in c.coords && c.coords[t].iso == SI && c.coords[t].involved == {s}
  }

  /** What it does to its shard, by the vote and by the commit. */
  lemma SoloCommit(s: Site, t: TxId, op: B.WriteOp, at: u64) returns (s1: Site, s2: Site)
    requires Pending(s, t, op) && s.st.ts + 1 < at < 0x1_FE00
    ensures Prepare(s, t, SI, 1) == (s1, Ballot(VoteCommit, s.st.ts + 1, None)) && s1.st.ts == s.st.ts + 1
    ensures Commit(s1, t, at, 1).0 == s2 && Done(s, s2, t, op, at)
  {
    s1 := Prepare(s, t, SI, 1).0;
    SoloPrepare(s, t, op);
    SoloFinish(s1, t, at);
    s2 := Commit(s1, t, at, 1).0;
    VotedFinished(s, s1, s2, t, op, at);
  }

  /** Both phases of such a transaction. */
  lemma SoloRound(c: C.State, t: TxId, s: ShardId, op: B.WriteOp) returns (c': C.State, at: u64)
    requires C.Reachable(c) && OnOne(c, t, s) && c.coords[t].phase.Active? && c.coords[t].results == map[]
    requires Pending(c.sites[s], t, op) && c.sites[s].st.ts < 0x1_FC00
    ensures at == Max(c.clock, c.sites[s].st.ts + 1) + 1
    ensures C.Reachable(c') && c'.clock == at && c'.net == {} && s in c'.sites
    ensures Done(c.sites[s], c'.sites[s], t, op, at) && c'.sites == c.sites[s := c'.sites[s]]
    ensures t in c'.coords && c'.coords == c.coords[t := c'.coords[t]] && c'.coords[t].phase == C.Committed(at)
  {
    var time := c.sites[s].st.ts + 1;
    at := Max(c.clock, time) + 1;
    var s1, s2 := SoloCommit(c.sites[s], t, op, at);
    SlowRound(c.clock, c.sites[s].st.ts);
    c' := Runs.WholeRound(c, t, s, time, s1, at, s2);
  }
}
