/** One transaction, unhindered, from begin to commit: the premises of the guarantees can
    be met, and what was written can then be read. */
module Progress {
  import opened Basics
  import S = Store
  import SI = SiteInvariant
  import Runs
  import Shard
  import Site
  import opened Cluster
  import opened Solo

  /** Nothing has happened yet, and every clock is at zero. */
  ghost predicate Idle(c: State) {
    Initial(c) && c.clock == 0 && forall s <- c.sites :: Blank(c.sites[s])
  }

  /** A transaction's first write, on a blank shard. */
  lemma FirstWrite(site: Site.Site, t: TxId, k: Key, v: Text) returns (s1: Site.Site, s2: Site.Site)
    requires Blank(site)
    ensures s1 == Site.Start(site, t) && s1.st.ts == 0
    ensures s2 == Site.Write(s1, t, k, v, false, 1) && s2.log == [] && s2.st.data == map[] && s2.st.ts == 0x1_0000
    ensures Pending(s2, t, Op(k, v, false)) && s2.st.buffers.Keys == {t}
  {
    s1 := Site.Start(site, t);
    s2 := Site.Write(s1, t, k, v, false, 1);
    FirstTick();
    SI.FreshInv(site);
    SI.StartKeeps(site, t);
    SI.WriteKeeps(s1, t, k, v, false, 1);
    SI.WriteShape(s1, t, k, v, false, 1);
    OnePut(Op(k, v, false));
  }

  /** From any idle system, a transaction that puts one key on one shard can run to its
      commit, and the shard then shows what it wrote. */
  lemma ATransactionCommits(c0: State, s: ShardId, k: Key, v: Text) returns (c: State, t: TxId)
    requires Idle(c0) && s in c0.sites
    ensures Reachable(c) && s in c.sites && t in c.coords && c.coords[t].phase.Committed?
    ensures S.Latest(S.VersionsOf(c.sites[s].st.data, k)) ==
            Some(S.VersionedValue(v, c.coords[t].phase.at, false, t))
  {
    Runs.InitialReachable(c0);
    FirstTick();
    SlowClock(0x1_0000);
    c, t := Runs.BeginStep(c0, Shard.SI);
    var s1, s2 := FirstWrite(c.sites[s], t, k, v);
    c := Runs.StartStep(c, t, s);
    c := Runs.WriteStep(c, t, s, k, v, false);
    var at;
    c, at := SoloRound(c, t, s, Op(k, v, false));
    OnlyCommit(c.sites[s], c.sites[s].log[0], k, v);
  }

  lemma OnlyCommit(site: Site.Site, e: Site.Applied, k: Key, v: Text)
    requires Site.Grounded(site) && site.log == [] + [e] && e.pledge.buf == One(Op(k, v, false))
    ensures S.Latest(S.VersionsOf(site.st.data, k)) == Some(S.VersionedValue(v, e.at, false, e.tx))
  {
    SI.ReplayIsHistory(site.log, k);
    assert site.log[..0] == [] && site.log[0] == e;
  }
}
