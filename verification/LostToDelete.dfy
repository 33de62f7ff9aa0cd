/** A reachable run in which an SI transaction loses an update to a delete: the version it
    recorded for a missing key, 0, is the version the key has again after a put and a delete. */
module LostToDelete {
  import opened Basics
  import S = Store
  import B = Buffer
  import I = Isolation
  import C = Cluster
  import Progress
  import Runs
  import opened Shard
  import opened Site
  import opened SiteInvariant
  import opened Solo

  // ---------------------------------------------------------------- the shard's side

  /** Two transactions have buffered a put of a missing key, a third has only started. */
  ghost predicate Waiting(s: Site, t: TxId, u: TxId, w: TxId, k: Key, v: Text) {
    && Quiet(s) && s.log == [] && s.st.data == map[] && s.st.ts == 0x1_0001
    && t in s.st.buffers && s.st.buffers[t] == One(Op(k, v, false)) && MarksOf(s, t) == map[k := 0]
    && u in s.st.buffers && s.st.buffers[u] == One(Op(k, v, false))
    && w in s.st.buffers && s.st.buffers[w] == B.EMPTY
  }

  lemma StartSteps(s: Site, t: TxId, u: TxId, w: TxId) returns (s1: Site, s2: Site, s3: Site)
    requires Blank(s) && t != u && u != w && t != w
    ensures s1 == Start(s, t) && s2 == Start(s1, u) && u !in s1.st.buffers && s3 == Start(s2, w) && w !in s2.st.buffers
    ensures Inv(s3) && s3.log == [] && s3.st.data == map[] && s3.st.ts == 0 && s3.st.status == map[]
    ensures s3.marks == map[]
    ensures s3.st.buffers == map[t := B.EMPTY, u := B.EMPTY, w := B.EMPTY]
  {
    FreshInv(s);
    s1 := Start(s, t);
    StartKeeps(s, t);
    s2 := Start(s1, u);
    StartKeeps(s1, u);
    s3 := Start(s2, w);
    StartKeeps(s2, w);
  }

  lemma WriteSteps(s3: Site, t: TxId, u: TxId, w: TxId, k: Key, v: Text) returns (s4: Site, s5: Site)
    requires Inv(s3) && s3.log == [] && s3.st.data == map[] && s3.st.ts == 0 && s3.st.status == map[]
    requires s3.marks == map[]
    requires s3.st.buffers == map[t := B.EMPTY, u := B.EMPTY, w := B.EMPTY] && t != u && u != w && t != w
    ensures s4 == Write(s3, t, k, v, false, 1) && s4.st.ts == 0x1_0000
    ensures s5 == Write(s4, u, k, v, false, 1) && Waiting(s5, t, u, w, k, v)
  {
    FirstTick();
    SlowClock(0x1_0000);
    OnePut(Op(k, v, false));
    s4 := Write(s3, t, k, v, false, 1);
    WriteKeeps(s3, t, k, v, false, 1);
    s5 := Write(s4, u, k, v, false, 1);
    WriteKeeps(s4, u, k, v, false, 1);
  }

  /** The third transaction buffers a delete. */
  lemma DeleteStep(s: Site, w: TxId, k: Key) returns (s': Site, op: B.WriteOp)
    requires Quiet(s) && s.st.ts < 0x1_FB00 && w in s.st.buffers && s.st.buffers[w] == B.EMPTY
    ensures s' == Write(s, w, k, NO_TEXT, true, 1) && s'.st.ts == s.st.ts + 1 && s'.log == s.log
    ensures Pending(s', w, op) && op.key == k && op.deleted
    ensures forall x :: x != w ==> SameFor(s, s', x)
  {
    op := B.WriteOp(k, NO_TEXT, true, S.LatestVersion(S.VersionsOf(s.st.data, k)));
    s' := Write(s, w, k, NO_TEXT, true, 1);
    SlowClock(s.st.ts);
    assert !IsPrepared(s, w);
    WriteKeeps(s, w, k, NO_TEXT, true, 1);
    OnePut(op);
    forall x ensures !IsPrepared(s', x) {
      assert !IsPrepared(s, x);
    }
    forall x | x != w ensures SameFor(s, s', x) {
      WriteLeavesOthers(s, w, k, NO_TEXT, true, 1, x);
    }
  }

  /** After a delete, the key reads as missing again. */
  lemma GoneAgain(s: Site, e: Applied, k: Key)
    requires Inv(s) && s.log != [] && s.log[|s.log| - 1] == e && Writes(e, k) && e.pledge.buf.writes[k].deleted
    ensures S.LatestVersion(S.VersionsOf(s.st.data, k)) == 0
  {
    ReplayIsHistory(s.log, k);
  }

  lemma Third(log: seq<Applied>, a: Applied, b: Applied, e: Applied, k: Key)
    requires log == [] + [a] + [b] && Writes(a, k)
    ensures |log + [e]| == 3 && (log + [e])[0] == a && (log + [e])[2] == e && !NoWriter(log + [e], 0, 2, k)
  {
    assert (log + [e])[0] == a;
  }

  // ---------------------------------------------------------------- the run

  /** The router knows an SI transaction that uses one shard. */
  ghost predicate Using(c: C.State, t: TxId, s: ShardId) {
    && s in c.sites && t in c.coords && c.coords[t].iso == SI && c.coords[t].involved == {s}
    && c.coords[t].phase.Active? && c.coords[t].results == map[]
  }

  ghost predicate Begun(c: C.State, t: TxId) {
    t in c.coords && c.coords[t] == C.Coord(c.coords[t].snapshot, SI, {}, map[], C.Active)
  }

  lemma ThreeBegin(c0: C.State) returns (c: C.State, t: TxId, u: TxId, w: TxId)
    requires Progress.Idle(c0)
    ensures C.Reachable(c) && c.clock == 0x1_0005 && c.net == {} && c.sites == c0.sites
    ensures t != u && u != w && t != w && Begun(c, t) && Begun(c, u) && Begun(c, w)
  {
    Runs.InitialReachable(c0);
    FirstTick();
    SlowClock(0x1_0000);
    SlowClock(0x1_0001);
    SlowClock(0x1_0002);
    SlowClock(0x1_0003);
    SlowClock(0x1_0004);
    c, t := Runs.BeginStep(c0, SI);
    c, u := Runs.BeginStep(c, SI);
    c, w := Runs.BeginStep(c, SI);
  }

  lemma StartOne(c0: C.State, t: TxId, s: ShardId, site': Site) returns (c: C.State)
    requires C.Reachable(c0) && Begun(c0, t) && s in c0.sites && t !in c0.sites[s].st.buffers
    requires site' == Start(c0.sites[s], t)
    ensures C.Reachable(c) && c.clock == c0.clock && c.net == c0.net && Using(c, t, s)
    ensures c.sites == c0.sites[s := site']
    ensures c.coords == c0.coords[t := c.coords[t]]
  {
    c := Runs.StartStep(c0, t, s);
    assert c.coords[t].involved == {s};
  }

  lemma TwoStart(c0: C.State, t: TxId, u: TxId, w: TxId, s: ShardId, s1: Site, s2: Site) returns (c: C.State)
    requires C.Reachable(c0) && s in c0.sites && Blank(c0.sites[s]) && t != u && u != w && t != w
    requires Begun(c0, t) && Begun(c0, u) && Begun(c0, w)
    requires s1 == Start(c0.sites[s], t) && s2 == Start(s1, u) && u !in s1.st.buffers
    ensures C.Reachable(c) && c.clock == c0.clock && c.net == c0.net && c.sites == c0.sites[s := s2]
    ensures Using(c, t, s) && Using(c, u, s) && Begun(c, w)
  {
    c := StartOne(c0, t, s, s1);
    var c1 := c;
    assert c1.sites[s] == s1 && c1.coords[u] == c0.coords[u] && c1.coords[w] == c0.coords[w];
    c := StartOne(c1, u, s, s2);
    Runs.NextSite(c0.sites, s, s1, s2);
    assert c.coords[t] == c1.coords[t] && c.coords[w] == c0.coords[w];
  }

  lemma ThreeStart(c0: C.State, t: TxId, u: TxId, w: TxId, s: ShardId, s1: Site, s2: Site, s3: Site)
    returns (c: C.State)
    requires C.Reachable(c0) && s in c0.sites && Blank(c0.sites[s]) && t != u && u != w && t != w
    requires Begun(c0, t) && Begun(c0, u) && Begun(c0, w)
    requires s1 == Start(c0.sites[s], t) && s2 == Start(s1, u) && u !in s1.st.buffers
    requires s3 == Start(s2, w) && w !in s2.st.buffers
    ensures C.Reachable(c) && c.clock == c0.clock && c.net == c0.net && s in c.sites && c.sites[s] == s3
    ensures Using(c, t, s) && Using(c, u, s) && Using(c, w, s)
  {
    c := TwoStart(c0, t, u, w, s, s1, s2);
    assert c.sites[s] == s2;
    c := StartOne(c, w, s, s3);
  }

  lemma TwoWrite(c0: C.State, t: TxId, u: TxId, s: ShardId, k: Key, v: Text, s4: Site, s5: Site) returns (c: C.State)
    requires C.Reachable(c0) && Using(c0, t, s) && Using(c0, u, s) && c0.sites[s].st.ts == 0
    requires s4 == Write(c0.sites[s], t, k, v, false, 1) && s4.st.ts == 0x1_0000 && s5 == Write(s4, u, k, v, false, 1)
    ensures C.Reachable(c) && c == c0.(sites := c0.sites[s := s5])
  {
    FirstTick();
    SlowClock(0x1_0000);
    c := Runs.TwoWriteSteps(c0, t, k, u, k, s, v, s4, s5);
  }

  /** All three are ready. */
  lemma Ready(c0: C.State, s: ShardId, k: Key, v: Text) returns (c: C.State, t: TxId, u: TxId, w: TxId)
    requires Progress.Idle(c0) && s in c0.sites
    ensures C.Reachable(c) && c.clock == 0x1_0005 && c.net == {} && t != u && u != w && t != w
    ensures Using(c, t, s) && Using(c, u, s) && Using(c, w, s) && Waiting(c.sites[s], t, u, w, k, v)
  {
    c, t, u, w := ThreeBegin(c0);
    var s1, s2, s3 := StartSteps(c.sites[s], t, u, w);
    c := ThreeStart(c, t, u, w, s, s1, s2, s3);
    var s4, s5 := WriteSteps(s3, t, u, w, k, v);
    c := TwoWrite(c, t, u, s, k, v, s4, s5);
  }

  /** The first put commits. */
  lemma PutRound(c0: C.State, t: TxId, u: TxId, w: TxId, s: ShardId, k: Key, v: Text) returns (c: C.State, a: Applied)
    requires C.Reachable(c0) && c0.clock == 0x1_0005 && c0.net == {} && t != u && u != w && t != w
    requires Using(c0, t, s) && Using(c0, u, s) && Using(c0, w, s) && Waiting(c0.sites[s], t, u, w, k, v)
    ensures C.Reachable(c) && c.clock == 0x1_0006 && c.net == {} && Using(c, t, s) && Using(c, w, s)
    ensures Done(c0.sites[s], c.sites[s], u, Op(k, v, false), 0x1_0006)
    ensures c.sites[s].log == [] + [a] && a.tx == u && Writes(a, k)
  {
    var at;
    c, at := SoloRound(c0, u, s, Op(k, v, false));
    a := Applied(u, at, Pledge(One(Op(k, v, false)), SI, 0x1_0002, 0, MarksOf(c0.sites[s], u)));
  }

  /** The delete is buffered and commits. */
  lemma DeleteRound(c0: C.State, t: TxId, w: TxId, s: ShardId, k: Key) returns (c: C.State, b: Applied)
    requires C.Reachable(c0) && c0.clock == 0x1_0006 && c0.net == {} && t != w && Using(c0, t, s) && Using(c0, w, s)
    requires Quiet(c0.sites[s]) && c0.sites[s].st.ts == 0x1_0007
    requires w in c0.sites[s].st.buffers && c0.sites[s].st.buffers[w] == B.EMPTY
    ensures C.Reachable(c) && c.clock == 0x1_000A && c.net == {} && Using(c, t, s)
    ensures Quiet(c.sites[s]) && c.sites[s].st.ts == 0x1_000B && SameFor(c0.sites[s], c.sites[s], t)
    ensures c.sites[s].log == c0.sites[s].log + [b] && Writes(b, k) && b.pledge.buf.writes[k].deleted
  {
    SlowClock(0x1_0007);
    var s', op := DeleteStep(c0.sites[s], w, k);
    c := Runs.WriteStep(c0, w, s, k, NO_TEXT, true);
    assert c.sites[s] == s';
    var at;
    c, at := SoloRound(c, w, s, op);
    b := Applied(w, at, Pledge(One(op), SI, 0x1_0009, |s'.log|, MarksOf(s', w)));
    SameForBoth(c0.sites[s], s', c.sites[s], t);
  }

  /** From any idle system: an SI transaction whose write saw a missing key commits over
      another's put that a third had deleted in between. */
  lemma UpdateLostToDelete(c0: C.State, s: ShardId, k: Key, v: Text) returns (c: C.State, t: TxId, u: TxId)
    requires Progress.Idle(c0) && s in c0.sites
    ensures C.Reachable(c) && s in c.sites
    ensures var log := c.sites[s].log;
            && |log| == 3 && log[0].tx == u && log[2].tx == t && I.Checked(log[2].pledge)
            && Writes(log[2], k) && k in log[2].pledge.marks
            && !NoWriter(log, log[2].pledge.marks[k], 2, k)
  {
    var w, a, b;
    c, t, u, w := Ready(c0, s, k, v);
    var site := c.sites[s];
    c, a := PutRound(c, t, u, w, s, k, v);
    assert SameFor(site, c.sites[s], t) && SameFor(site, c.sites[s], w);
    c, b := LastRounds(c, t, w, s, k, v, a);
  }

  lemma LastRounds(c0: C.State, t: TxId, w: TxId, s: ShardId, k: Key, v: Text, a: Applied)
    returns (c: C.State, b: Applied)
    requires C.Reachable(c0) && c0.clock == 0x1_0006 && c0.net == {} && t != w && Using(c0, t, s) && Using(c0, w, s)
    requires Quiet(c0.sites[s]) && c0.sites[s].st.ts == 0x1_0007 && c0.sites[s].log == [] + [a] && Writes(a, k)
    requires w in c0.sites[s].st.buffers && c0.sites[s].st.buffers[w] == B.EMPTY
    requires t in c0.sites[s].st.buffers && c0.sites[s].st.buffers[t] == One(Op(k, v, false))
    requires MarksOf(c0.sites[s], t) == map[k := 0]
    ensures C.Reachable(c) && s in c.sites
    ensures var log := c.sites[s].log;
            && |log| == 3 && log[0] == a && log[2].tx == t && I.Checked(log[2].pledge)
            && Writes(log[2], k) && log[2].pledge.marks == map[k := 0] && !NoWriter(log, 0, 2, k)
  {
    c, b := DeleteRound(c0, t, w, s, k);
    var site, at := c.sites[s], 0x1_000D;
    GoneAgain(site, b, k);
    c, at := SoloRound(c, t, s, Op(k, v, false));
    Third(site.log, a, b, Applied(t, at, Pledge(One(Op(k, v, false)), SI, 0x1_000C, 2, MarksOf(site, t))), k);
  }
}
