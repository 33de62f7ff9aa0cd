/** Building runs of the cluster: every enabled action leads to a reachable state, and
    what each action changes. */
module Runs {
  import opened Basics
  import Hlc
  import R = Router
  import Shard
  import Site
  import opened Cluster
  import opened ClusterInvariant

  // ---------------------------------------------------------------- longer runs

  lemma {:induction false} RunLonger(c: State, actions: seq<Action>, a: Action)
    requires Legal(c, actions) && Enabled(Run(c, actions), a)
    ensures Legal(c, actions + [a]) && Run(c, actions + [a]) == Next(Run(c, actions), a)
    decreases |actions|
  {
    if actions != [] {
      RunLonger(Next(c, actions[0]), actions[1..], a);
      assert (actions + [a])[1..] == actions[1..] + [a];
    } else {
      assert [] + [a] == [a] && [a][1..] == [];
      assert Legal(Next(c, a), []) && Run(Next(c, a), []) == Next(c, a);
    }
  }

  lemma {:induction false} RunThen(c: State, xs: seq<Action>, ys: seq<Action>)
    requires Legal(c, xs) && Legal(Run(c, xs), ys)
    ensures Legal(c, xs + ys) && Run(c, xs + ys) == Run(Run(c, xs), ys)
    decreases |xs|
  {
    if xs == [] {
      assert xs + ys == ys;
    } else {
      RunThen(Next(c, xs[0]), xs[1..], ys);
      assert (xs + ys)[1..] == xs[1..] + ys;
    }
  }

  lemma TwoActions(c: State, a: Action, b: Action)
    requires Enabled(c, a) && Enabled(Next(c, a), b)
    ensures Legal(c, [a, b]) && Run(c, [a, b]) == Next(Next(c, a), b)
  {
    assert [a, b][1..] == [b] && [b][1..] == [];
    assert Legal(Next(Next(c, a), b), []);
    assert Legal(Next(c, a), [b]) && Run(Next(c, a), [b]) == Next(Next(c, a), b);
  }

  /** What an enabled action leads to is reachable. */
  lemma ReachableNext(c: State, a: Action)
    requires Reachable(c) && Enabled(c, a)
    ensures Reachable(Next(c, a))
  {
    var c0, actions :| Initial(c0) && Legal(c0, actions) && Run(c0, actions) == c;
    RunLonger(c0, actions, a);
  }

  lemma InitialReachable(c: State)
    requires Initial(c)
    ensures Reachable(c)
  {
    assert Legal(c, []) && Run(c, []) == c;
  }

  // ---------------------------------------------------------------- the actions, one by one

  lemma BeginStep(c: State, iso: Shard.Isolation) returns (c': State, tx: TxId)
    requires Reachable(c) && Hlc.TickFits(c.clock, 1) && Hlc.TickFits(Hlc.TickTs(c.clock, 1), 1)
    ensures tx == R.TxName(Hlc.TickTs(c.clock, 1)) && tx !in c.coords
    ensures Reachable(c') && c'.clock == Hlc.TickTs(Hlc.TickTs(c.clock, 1), 1)
    ensures c'.coords == c.coords[tx := Coord(c'.clock, iso, {}, map[], Active)]
    ensures c'.sites == c.sites && c'.net == c.net
  {
    ReachableInv(c);
    NameIsNew(c, 1);
    var a := Begin(iso, 1, 1);
    ReachableNext(c, a);
    c', tx := Next(c, a), R.TxName(Hlc.TickTs(c.clock, 1));
  }

  lemma StartStep(c: State, tx: TxId, s: ShardId) returns (c': State)
    requires Reachable(c) && CanStart(c, tx, s) && tx !in c.sites[s].st.buffers
    ensures Reachable(c') && c'.clock == c.clock && c'.net == c.net
    ensures c'.sites == c.sites[s := Site.Start(c.sites[s], tx)]
    ensures c'.coords == c.coords[tx := c.coords[tx].(involved := c.coords[tx].involved + {s})]
  {
    var a := Start(tx, s, true);
    ReachableNext(c, a);
    c' := AfterStart(c, tx, s, true);
  }

  lemma ReadStep(c: State, tx: TxId, s: ShardId, k: Key) returns (c': State)
    requires Reachable(c) && CanCall(c, tx, s, 1)
    ensures Reachable(c') && c' == c.(sites := c.sites[s := Site.Read(c.sites[s], tx, k, c.coords[tx].snapshot, 1)])
  {
    var a := Read(tx, s, k, 1);
    ReachableNext(c, a);
    c' := AfterRead(c, tx, s, k, 1);
  }

  lemma WriteStep(c: State, tx: TxId, s: ShardId, k: Key, v: Text, deleted: bool) returns (c': State)
    requires Reachable(c) && CanCall(c, tx, s, 1)
    ensures Reachable(c') && c' == c.(sites := c.sites[s := Site.Write(c.sites[s], tx, k, v, deleted, 1)])
  {
    var a := Write(tx, s, k, v, deleted, 1);
    ReachableNext(c, a);
    c' := AfterWrite(c, tx, s, k, v, deleted, 1);
  }

  /** Two transactions write to one shard in a row. */
  lemma TwoWriteSteps(c: State, t: TxId, kt: Key, u: TxId, ku: Key, s: ShardId, v: Text, s1: Site.Site, s2: Site.Site)
    returns (c': State)
    requires Reachable(c) && CanCall(c, t, s, 1) && CanCall(c, u, s, 1) && Hlc.TickFits(s1.st.ts, 1)
    requires s1 == Site.Write(c.sites[s], t, kt, v, false, 1) && s2 == Site.Write(s1, u, ku, v, false, 1)
    ensures Reachable(c') && c' == c.(sites := c.sites[s := s2])
  {
    var c1 := WriteStep(c, t, s, kt, v, false);
    assert c1.sites[s] == s1;
    c' := WriteStep(c1, u, s, ku, v, false);
    NextSite(c.sites, s, s1, s2);
  }

  lemma NextSite(sites: map<ShardId, Site.Site>, s: ShardId, site: Site.Site, site': Site.Site)
    ensures sites[s := site][s := site'] == sites[s := site']
  {
  }

  lemma AskStep(c: State, tx: TxId) returns (c': State)
    requires Reachable(c) && CanAsk(c, tx)
    ensures Reachable(c') && c'.clock == c.clock && c'.sites == c.sites
    ensures c'.net == c.net + set s | s in c.coords[tx].involved :: AskPrepare(tx, s)
    ensures c'.coords == c.coords[tx := c.coords[tx].(phase := Preparing)]
  {
    var a := AskVotes(tx);
    ReachableNext(c, a);
    c' := AfterAsk(c, tx);
  }

  /** A shard that votes COMMIT, and the router hearing it. */
  lemma VoteStep(c: State, tx: TxId, s: ShardId, time: u64) returns (c': State)
    requires Reachable(c) && CanPrepare(c, tx, s, 1) && c.coords[tx].phase.Preparing?
    requires Site.Prepare(c.sites[s], tx, c.coords[tx].iso, 1).1 == Shard.Ballot(Shard.VoteCommit, time, None)
    requires VoteReply(tx, s, Shard.VoteCommit, time) !in c.net
    ensures Reachable(c') && c'.clock == c.clock && c'.net == c.net - {AskPrepare(tx, s)}
    ensures c'.sites == c.sites[s := Site.Prepare(c.sites[s], tx, c.coords[tx].iso, 1).0]
    ensures c'.coords == c.coords[tx := c.coords[tx].(results := c.coords[tx].results[s := time])]
  {
    var c1 := AfterPrepare(c, tx, s, 1);
    ReachableNext(c, Prepare(tx, s, 1));
    ReachableNext(c1, HearVote(tx, s, Shard.VoteCommit, time));
    c' := AfterHear(c1, tx, s, Shard.VoteCommit, time);
  }

  lemma DecideStep(c: State, tx: TxId) returns (c': State)
    requires Reachable(c) && CanDecide(c, tx, 1)
    ensures var at := R.CommitTime(c.clock, c.coords[tx].results, 1);
            && Reachable(c') && c'.clock == at && c'.sites == c.sites
            && c'.net == c.net + (set s | s in c.coords[tx].involved :: DoCommit(tx, s, at))
            && c'.coords == c.coords[tx := c.coords[tx].(phase := Committed(at))]
  {
    var a := Decide(tx, 1);
    ReachableNext(c, a);
    c' := AfterDecide(c, tx, 1);
  }

  lemma CommitStep(c: State, tx: TxId, s: ShardId, at: u64) returns (c': State)
    requires Reachable(c) && CanCommit(c, tx, s, at, 1)
    ensures Reachable(c') && c'.clock == c.clock && c'.coords == c.coords && c'.net == c.net - {DoCommit(tx, s, at)}
    ensures c'.sites == c.sites[s := Site.Commit(c.sites[s], tx, at, 1).0]
  {
    var a := Commit(tx, s, at, 1);
    ReachableNext(c, a);
    c' := AfterCommit(c, tx, s, at, 1);
  }

  // ---------------------------------------------------------------- a transaction on one shard

  /** Phase one on a single shard that votes COMMIT, with no other message around. */
  lemma VoteRound(c: State, tx: TxId, s: ShardId, time: u64, site': Site.Site) returns (c': State)
    requires Reachable(c) && c.net == {} && CanAsk(c, tx) && s in c.sites && Hlc.TickFits(TsOf(c, s), 1)
    requires c.coords[tx].involved == {s} && c.coords[tx].results == map[]
    requires Site.Prepare(c.sites[s], tx, c.coords[tx].iso, 1) == (site', Shard.Ballot(Shard.VoteCommit, time, None))
    ensures Reachable(c') && c'.clock == c.clock && c'.net == {} && c'.sites == c.sites[s := site']
    ensures c'.coords == c.coords[tx := c.coords[tx].(phase := Preparing, results := map[s := time])]
  {
    var k := c.coords[tx];
    var c1 := AskStep(c, tx);
    OneAskMessage(tx, s);
    assert c1.net == {AskPrepare(tx, s)} && c1.coords[tx] == k.(phase := Preparing);
    c' := VoteStep(c1, tx, s, time);
    NextCoord(c.coords, tx, k.(phase := Preparing), k.(phase := Preparing, results := k.results[s := time]));
    assert k.results[s := time] == map[s := time];
  }

  lemma NextCoord(coords: map<TxId, Coord>, tx: TxId, k: Coord, k': Coord)
    ensures coords[tx := k][tx := k'] == coords[tx := k']
  {
  }

  lemma OneAskMessage(tx: TxId, s: ShardId)
    ensures (set r | r in {s} :: AskPrepare(tx, r)) == {AskPrepare(tx, s)}
  {
  }

  /** Phase two on a single shard, with no other message around. */
  lemma OutcomeRound(c: State, tx: TxId, s: ShardId, time: u64, at: u64, site': Site.Site) returns (c': State)
    requires Reachable(c) && c.net == {} && s in c.sites && tx in c.coords && c.coords[tx].phase.Preparing?
    requires c.coords[tx].involved == {s} && c.coords[tx].results == map[s := time]
    requires Hlc.UpdateFits(c.clock, time, 1) && at == Hlc.UpdateTs(c.clock, time, 1)
    requires Hlc.UpdateFits(TsOf(c, s), at, 1) && Site.Commit(c.sites[s], tx, at, 1).0 == site'
    ensures Reachable(c') && c'.clock == at && c'.net == {} && c'.sites == c.sites[s := site']
    ensures c'.coords == c.coords[tx := c.coords[tx].(phase := Committed(at))]
  {
    OneTime(s, time);
    var c1 := DecideStep(c, tx);
    OneCommitMessage(tx, s, at);
    c' := CommitStep(c1, tx, s, at);
  }

  /** Both phases on a single shard. */
  lemma WholeRound(c: State, tx: TxId, s: ShardId, time: u64, site1: Site.Site, at: u64, site2: Site.Site)
    returns (c': State)
    requires Reachable(c) && c.net == {} && CanAsk(c, tx) && s in c.sites && Hlc.TickFits(TsOf(c, s), 1)
    requires c.coords[tx].involved == {s} && c.coords[tx].results == map[]
    requires Site.Prepare(c.sites[s], tx, c.coords[tx].iso, 1) == (site1, Shard.Ballot(Shard.VoteCommit, time, None))
    requires Hlc.UpdateFits(c.clock, time, 1) && at == Hlc.UpdateTs(c.clock, time, 1)
    requires Hlc.UpdateFits(site1.st.ts, at, 1) && Site.Commit(site1, tx, at, 1).0 == site2
    ensures Reachable(c') && c'.clock == at && c'.net == {} && c'.sites == c.sites[s := site2]
    ensures c'.coords == c.coords[tx := c.coords[tx].(phase := Committed(at), results := map[s := time])]
  {
    var k := c.coords[tx];
    var c1 := VoteRound(c, tx, s, time, site1);
    assert c1.sites[s] == site1 && c1.coords[tx] == k.(phase := Preparing, results := map[s := time]);
    c' := OutcomeRound(c1, tx, s, time, at, site2);
    NextCoord(c.coords, tx, c1.coords[tx], k.(phase := Committed(at), results := map[s := time]));
    NextSite(c.sites, s, site1, site2);
  }

  lemma OneTime(s: ShardId, time: u64)
    ensures R.MaxTime(map[s := time]) == time
  {
    R.MaxTimeLaw(map[s := time]);
    assert map[s := time][s] == time;
  }

  lemma OneCommitMessage(tx: TxId, s: ShardId, at: u64)
    ensures (set r | r in {s} :: DoCommit(tx, r, at)) == {DoCommit(tx, s, at)}
  {
  }
}
