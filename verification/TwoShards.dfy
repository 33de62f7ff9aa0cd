/** One transaction that has written a key on two shards and is decided, from any idle
    system: neither shard has heard of the decision yet. */
module TwoShards {
  import opened Basics
  import SI = SiteInvariant
  import R = Router
  import Progress
  import Runs
  import Shard
  import Site
  import opened Cluster
  import opened Solo

  /** Its commit time. */
  const AT: u64 := 0x1_0002

  /** A shard that has promised the transaction's one write and applied nothing. */
  ghost predicate Holding(site: Site.Site, t: TxId, k: Key, v: Text) {
    && Site.Inv(site) && site.log == [] && site.st.ts == 0x1_0001 && site.st.buffers.Keys == {t}
    && Site.IsPrepared(site, t) && (forall w :: w != t ==> !Site.IsPrepared(site, w))
    && t in site.pledges
    && site.pledges[t] == Site.Pledge(One(Op(k, v, false)), Shard.SI, 0x1_0001, 0, site.pledges[t].marks)
  }

  /** The moment before the decision. */
  ghost predicate BothVoted(c: State, t: TxId, s: ShardId, r: ShardId, k: Key, v: Text) {
    && c.clock == 0x1_0001 && c.net == {} && OnTwo(c, t, s, r, Preparing, map[s := 0x1_0001, r := 0x1_0001])
    && Holding(c.sites[s], t, k, v) && Holding(c.sites[r], t, k, v)
  }

  /** The moment after the decision. */
  ghost predicate Waiting(c: State, t: TxId, s: ShardId, r: ShardId, k: Key, v: Text) {
    && c.clock == AT && c.net == {DoCommit(t, s, AT), DoCommit(t, r, AT)}
    && OnTwo(c, t, s, r, Committed(AT), map[s := 0x1_0001, r := 0x1_0001])
    && Holding(c.sites[s], t, k, v) && Holding(c.sites[r], t, k, v)
  }

  /** A transaction on two shards, and nothing besides. */
  ghost predicate OnTwo(c: State, t: TxId, s: ShardId, r: ShardId, phase: Phase, results: map<ShardId, u64>) {
    && s != r && s in c.sites && r in c.sites && t in c.coords && c.coords[t].iso == Shard.SI
    && c.coords[t].involved == {s, r} && c.coords[t].phase == phase && c.coords[t].results == results
    && c.coords.Keys == {t} && forall x <- c.sites :: x != s && x != r ==> c.sites[x].log == []
  }

  lemma BothStart(c0: State, t: TxId, s: ShardId, r: ShardId, s1: Site.Site, r1: Site.Site) returns (c: State)
    requires Reachable(c0) && c0.net == {} && s != r && s in c0.sites && r in c0.sites && Blank(c0.sites[s])
    requires Blank(c0.sites[r]) && forall x <- c0.sites :: c0.sites[x].log == []
    requires c0.coords.Keys == {t} && c0.coords[t] == Coord(c0.coords[t].snapshot, Shard.SI, {}, map[], Active)
    requires s1 == Site.Start(c0.sites[s], t) && r1 == Site.Start(c0.sites[r], t)
    ensures Reachable(c) && c.clock == c0.clock && c.net == {} && OnTwo(c, t, s, r, Active, map[])
    ensures c.sites[s] == s1 && c.sites[r] == r1
  {
    c := Runs.StartStep(c0, t, s);
    assert c.sites[r] == c0.sites[r] && c.coords[t].involved == {s};
    c := Runs.StartStep(c, t, r);
    assert c.coords[t].involved == {s, r};
  }

  lemma BothWrite(c0: State, t: TxId, s: ShardId, r: ShardId, k: Key, v: Text, s2: Site.Site, r2: Site.Site)
    returns (c: State)
    requires Reachable(c0) && OnTwo(c0, t, s, r, Active, map[]) && c0.sites[s].st.ts == 0 && c0.sites[r].st.ts == 0
    requires s2 == Site.Write(c0.sites[s], t, k, v, false, 1) && r2 == Site.Write(c0.sites[r], t, k, v, false, 1)
    ensures Reachable(c) && c.clock == c0.clock && c.net == c0.net && OnTwo(c, t, s, r, Active, map[])
    ensures c.sites[s] == s2 && c.sites[r] == r2
  {
    FirstTick();
    c := Runs.WriteStep(c0, t, s, k, v, false);
    assert c.sites[r] == c0.sites[r];
    c := Runs.WriteStep(c, t, r, k, v, false);
  }

  lemma BothAsked(c0: State, t: TxId, s: ShardId, r: ShardId) returns (c: State)
    requires Reachable(c0) && c0.net == {} && OnTwo(c0, t, s, r, Active, map[])
    ensures Reachable(c) && c.clock == c0.clock && c.sites == c0.sites
    ensures c.net == {AskPrepare(t, s), AskPrepare(t, r)} && OnTwo(c, t, s, r, Preparing, map[])
  {
    c := Runs.AskStep(c0, t);
    assert (set x | x in {s, r} :: AskPrepare(t, x)) == {AskPrepare(t, s), AskPrepare(t, r)};
  }

  lemma FirstVote(c0: State, t: TxId, s: ShardId, r: ShardId, s3: Site.Site) returns (c: State)
    requires Reachable(c0) && c0.net == {AskPrepare(t, s), AskPrepare(t, r)} && OnTwo(c0, t, s, r, Preparing, map[])
    requires Slow(TsOf(c0, s))
    requires Site.Prepare(c0.sites[s], t, Shard.SI, 1) == (s3, Shard.Ballot(Shard.VoteCommit, 0x1_0001, None))
    ensures Reachable(c) && c.clock == c0.clock && c.net == {AskPrepare(t, r)}
    ensures OnTwo(c, t, s, r, Preparing, map[s := 0x1_0001]) && c.sites == c0.sites[s := s3]
  {
    SlowClock(TsOf(c0, s));
    c := Runs.VoteStep(c0, t, s, 0x1_0001);
    assert c0.net - {AskPrepare(t, s)} == {AskPrepare(t, r)};
    assert c0.coords[t].results[s := 0x1_0001] == map[s := 0x1_0001];
  }

  lemma SecondVote(c0: State, t: TxId, s: ShardId, r: ShardId, r3: Site.Site) returns (c: State)
    requires Reachable(c0) && c0.net == {AskPrepare(t, r)} && OnTwo(c0, t, s, r, Preparing, map[s := 0x1_0001])
    requires Slow(TsOf(c0, r))
    requires Site.Prepare(c0.sites[r], t, Shard.SI, 1) == (r3, Shard.Ballot(Shard.VoteCommit, 0x1_0001, None))
    ensures Reachable(c) && c.clock == c0.clock && c.net == {}
    ensures OnTwo(c, t, s, r, Preparing, map[s := 0x1_0001, r := 0x1_0001]) && c.sites == c0.sites[r := r3]
  {
    SlowClock(TsOf(c0, r));
    c := Runs.VoteStep(c0, t, r, 0x1_0001);
    assert c0.net - {AskPrepare(t, r)} == {};
    assert map[s := 0x1_0001][r := 0x1_0001] == map[s := 0x1_0001, r := 0x1_0001];
  }

  lemma TwoTimes(s: ShardId, r: ShardId, time: u64)
    ensures R.MaxTime(map[s := time, r := time]) == time
  {
    var times := map[s := time, r := time];
    R.MaxTimeLaw(times);
    assert times[s] == time;
  }

  lemma Decided(c0: State, t: TxId, s: ShardId, r: ShardId) returns (c: State)
    requires Reachable(c0) && c0.net == {} && c0.clock == 0x1_0001
    requires OnTwo(c0, t, s, r, Preparing, map[s := 0x1_0001, r := 0x1_0001])
    ensures Reachable(c) && c.clock == AT && c.sites == c0.sites
    ensures OnTwo(c, t, s, r, Committed(AT), map[s := 0x1_0001, r := 0x1_0001])
    ensures c.net == {DoCommit(t, s, AT), DoCommit(t, r, AT)}
  {
    TwoTimes(s, r, 0x1_0001);
    SlowUpdate(0x1_0001, 0x1_0001);
    assert c0.coords[t].results.Keys == {s, r};
    c := Runs.DecideStep(c0, t);
    assert (set x | x in {s, r} :: DoCommit(t, x, AT)) == {DoCommit(t, s, AT), DoCommit(t, r, AT)};
  }

  /** The write is pending on a shard. */
  ghost predicate Written(site: Site.Site, t: TxId, k: Key, v: Text) {
    && Pending(site, t, Op(k, v, false))
    && site.st.ts == 0x1_0000 && site.log == [] && site.st.buffers.Keys == {t}
  }

  lemma VotedHolds(a: Site.Site, b: Site.Site, t: TxId, k: Key, v: Text)
    requires Written(a, t, k, v) && Voted(a, b, t, Op(k, v, false))
    ensures Holding(b, t, k, v)
  {
    assert Site.Settled(b, t);
    forall w ensures w in b.st.buffers <==> w == t {
      if w != t {
        assert SI.SameFor(a, b, w);
      }
    }
  }

  /** From any idle system with two shards both votes can be in, */
  lemma VotedOnTwo(c0: State, s: ShardId, r: ShardId, k: Key, v: Text) returns (c: State, t: TxId)
    requires Progress.Idle(c0) && s in c0.sites && r in c0.sites && s != r
    ensures Reachable(c) && BothVoted(c, t, s, r, k, v)
  {
    Runs.InitialReachable(c0);
    FirstTick();
    SlowClock(0x1_0000);
    c, t := Runs.BeginStep(c0, Shard.SI);
    var s1, s2 := Progress.FirstWrite(c.sites[s], t, k, v);
    var r1, r2 := Progress.FirstWrite(c.sites[r], t, k, v);
    c := BothStart(c, t, s, r, s1, r1);
    c := BothWrite(c, t, s, r, k, v, s2, r2);
    c := VotedFrom(c, t, s, r, k, v);
  }

  lemma VotedFrom(c0: State, t: TxId, s: ShardId, r: ShardId, k: Key, v: Text) returns (c: State)
    requires Reachable(c0) && c0.net == {} && c0.clock == 0x1_0001 && OnTwo(c0, t, s, r, Active, map[])
    requires Written(c0.sites[s], t, k, v) && Written(c0.sites[r], t, k, v)
    ensures Reachable(c) && BothVoted(c, t, s, r, k, v)
  {
    var s3 := WrittenVotes(c0.sites[s], t, k, v);
    var r3 := WrittenVotes(c0.sites[r], t, k, v);
    c := BothAsked(c0, t, s, r);
    c := FirstVote(c, t, s, r, s3);
    assert c.sites[r] == c0.sites[r];
    c := SecondVote(c, t, s, r, r3);
    assert c.sites[s] == s3 && c.sites[r] == r3;
  }

  /** and the decision can be made. */
  lemma DecidedOnTwo(c0: State, s: ShardId, r: ShardId, k: Key, v: Text) returns (c: State, t: TxId)
    requires Progress.Idle(c0) && s in c0.sites && r in c0.sites && s != r
    ensures Reachable(c) && Waiting(c, t, s, r, k, v)
  {
    c, t := VotedOnTwo(c0, s, r, k, v);
    c := Decided(c, t, s, r);
  }

  lemma WrittenVotes(a: Site.Site, t: TxId, k: Key, v: Text) returns (b: Site.Site)
    requires Written(a, t, k, v)
    ensures Site.Prepare(a, t, Shard.SI, 1) == (b, Shard.Ballot(Shard.VoteCommit, 0x1_0001, None))
    ensures Holding(b, t, k, v)
  {
    SoloPrepare(a, t, Op(k, v, false));
    b := Site.Prepare(a, t, Shard.SI, 1).0;
    VotedHolds(a, b, t, k, v);
  }
}
