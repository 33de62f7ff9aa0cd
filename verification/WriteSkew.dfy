/** Write skew: a reachable run in which two SER transactions commit although neither
    order of them is serial. */
module WriteSkew {
  import opened Basics
  import L = Locks
  import B = Buffer
  import I = Isolation
  import C = Cluster
  import Progress
  import Runs
  import opened Shard
  import opened Site
  import opened SiteInvariant
  import opened Solo

  // ---------------------------------------------------------------- write skew: the shard's side

  function Missing(k: Key): B.ReadRecord {
    B.ReadRecord(k, 0, false)
  }

  function ReadWrite(x: Key, y: Key, v: Text): B.Buf {
    B.Buf(map[y := Op(y, v, false)], [y], map[x := Missing(x)])
  }

  lemma Built(x: Key, y: Key, v: Text)
    ensures B.PutOp(B.RecordRead(B.EMPTY, Missing(x)), Op(y, v, false)) == ReadWrite(x, y, v)
  {
    assert [] + [y] == [y];
  }

  /** Each of two transactions has read one key, missing, and buffered a write of the other's. */
  ghost predicate Crossed(s: Site, t: TxId, u: TxId, x: Key, y: Key, v: Text) {
    && Inv(s) && s.log == [] && s.st.data == map[] && s.st.locks == L.EMPTY && s.st.ts == 0x1_0001
    && s.st.status == map[] && s.st.buffers == map[t := ReadWrite(x, y, v), u := ReadWrite(y, x, v)]
  }

  /** The steps that lead there on a blank shard; a read of a missing key takes no tick. */
  lemma CrossedSteps(s: Site, t: TxId, u: TxId, x: Key, y: Key, v: Text, at: u64, at': u64)
    returns (s1: Site, s2: Site, s3: Site, s4: Site, s5: Site, s6: Site)
    requires Blank(s) && t != u && x != y
    ensures s1 == Start(s, t) && s2 == Start(s1, u) && s2.st.ts == 0 && u !in s1.st.buffers
    ensures s3 == Read(s2, t, x, at, 1) && s3.st.ts == 0 && s4 == Read(s3, u, y, at', 1) && s4.st.ts == 0
    ensures s5 == Write(s4, t, y, v, false, 1) && s5.st.ts == 0x1_0000 && s6 == Write(s5, u, x, v, false, 1)
    ensures Crossed(s6, t, u, x, y, v)
  {
    FirstTick();
    SlowClock(0x1_0000);
    FreshInv(s);
    s1, s2 := Start(s, t), Start(Start(s, t), u);
    StartKeeps(s, t);
    StartKeeps(s1, u);
    s3, s4 := Read(s2, t, x, at, 1), Read(Read(s2, t, x, at, 1), u, y, at', 1);
    ReadKeeps(s2, t, x, at, 1);
    ReadKeeps(s3, u, y, at', 1);
    s5, s6 := Write(s4, t, y, v, false, 1), Write(Write(s4, t, y, v, false, 1), u, x, v, false, 1);
    WriteKeeps(s4, t, y, v, false, 1);
    WriteKeeps(s5, u, x, v, false, 1);
    assert s6.st.buffers[t] == ReadWrite(x, y, v) by { Built(x, y, v); }
    assert s6.st.buffers[u] == ReadWrite(y, x, v) by { Built(y, x, v); }
    assert s6.st.buffers.Keys == {t, u};
  }

  lemma PassesChecks(x: Key, y: Key, v: Text)
    ensures Validates(map[], ReadWrite(x, y, v), SER)
  {
    var b := ReadWrite(x, y, v);
    assert B.Sound(b);
    assert B.Ops(b) == [Op(y, v, false)];
  }

  /** Over an empty store, a SER transaction that read one key, missing, and writes
      another free one votes COMMIT. */
  lemma VotesYes(s: Site, t: TxId, x: Key, y: Key, v: Text) returns (s': Site)
    requires Inv(s) && s.log == [] && s.st.data == map[] && !IsPrepared(s, t) && Slow(s.st.ts)
    requires t in s.st.buffers && s.st.buffers[t] == ReadWrite(x, y, v) && L.FreeFor(s.st.locks, t, y)
    ensures Prepare(s, t, SER, 1) == (s', Ballot(VoteCommit, s.st.ts + 1, None))
    ensures Inv(s') && s'.log == [] && s'.st.data == map[] && s'.st.ts == s.st.ts + 1
    ensures Promised(s', t) && s'.pledges[t].buf == ReadWrite(x, y, v) && s'.pledges[t].iso == SER
    ensures forall w :: w != t ==> SameFor(s, s', w)
  {
    SlowClock(s.st.ts);
    PassesChecks(x, y, v);
    assert y in s.st.buffers[t].writes;
    VoteValidates(s, t, SER, 1);
    s' := Prepare(s, t, SER, 1).0;
    assert Prepare(s, t, SER, 1).1.vote == VoteCommit;
    PrepareKeeps(s, t, SER, 1);
    VoteShape(s, t, SER, 1);
  }

  lemma OnlyHolder(s: Site, s': Site, t: TxId, u: TxId, x: Key)
    requires s.st.locks == L.EMPTY && Promised(s', t) && x !in s'.pledges[t].buf.writes
    requires forall w :: w != t ==> SameFor(s, s', w)
    ensures L.FreeFor(s'.st.locks, u, x)
  {
    forall w ensures x !in L.Held(s'.st.locks, w) {
      assert w != t ==> SameFor(s, s', w);
    }
  }

  lemma StillPromised(s: Site, s': Site, t: TxId)
    requires Promised(s, t) && SameFor(s, s', t) && s'.log == s.log && s.st.ts <= s'.st.ts
    ensures Promised(s', t)
  {
  }

  /** Both vote COMMIT: their write locks are on different keys and reads take none. */
  lemma BothPromised(s0: Site, t: TxId, u: TxId, x: Key, y: Key, v: Text) returns (s1: Site, s2: Site)
    requires t != u && x != y && Crossed(s0, t, u, x, y, v)
    ensures Prepare(s0, t, SER, 1) == (s1, Ballot(VoteCommit, 0x1_0002, None)) && s1.st.ts == 0x1_0002
    ensures Prepare(s1, u, SER, 1) == (s2, Ballot(VoteCommit, 0x1_0003, None)) && s2.st.ts == 0x1_0003
    ensures Inv(s2) && s2.log == []
    ensures Promised(s2, t) && s2.pledges[t].buf == ReadWrite(x, y, v) && s2.pledges[t].iso == SER
    ensures Promised(s2, u) && s2.pledges[u].buf == ReadWrite(y, x, v) && s2.pledges[u].iso == SER
  {
    L.EmptyLaw();
    s1 := VotesYes(s0, t, x, y, v);
    assert SameFor(s0, s1, u);
    OnlyHolder(s0, s1, t, u, x);
    s2 := VotesYes(s1, u, y, x, v);
    assert SameFor(s1, s2, t);
    StillPromised(s1, s2, t);
  }

  /** And both commit, one after the other. */
  lemma BothCommit(s0: Site, t: TxId, u: TxId, at: u64, at': u64) returns (s1: Site, s2: Site)
    requires Inv(s0) && s0.log == [] && t != u && s0.st.ts == 0x1_0003 && Promised(s0, t) && Promised(s0, u)
    requires s0.st.ts < at < at' < 0x1_FE00
    ensures Commit(s0, t, at, 1).0 == s1 && s1.st.ts == at + 1 && Commit(s1, u, at', 1).0 == s2
    ensures s2.log == [] + [Applied(t, at, s0.pledges[t])] + [Applied(u, at', s0.pledges[u])]
  {
    SlowUpdate(s0.st.ts, at);
    SlowUpdate(at + 1, at');
    s1 := Commit(s0, t, at, 1).0;
    CommitKeeps(s0, t, at, 1);
    CommitState(s0, t, at, 1);
    CommitLeavesOthers(s0, t, at, 1, u);
    s2 := Commit(s1, u, at', 1).0;
    CommitKeeps(s1, u, at', 1);
  }

  /** The second transaction missed what the first had written. */
  lemma StaleSecond(a: Applied, b: Applied, k: Key)
    requires b.pledge.iso == SER && k in b.pledge.buf.readSet && b.pledge.buf.readSet[k] == Missing(k)
    requires k in a.pledge.buf.writes && !a.pledge.buf.writes[k].deleted
    ensures !I.SerialOrder([a, b])
  {
    var log := [a, b];
    assert log[..1] == [a] && [a][..0] == [];
    assert k in I.Serial(log[..1]);
    assert !I.Served(I.Serial(log[..1]), log[1].pledge.buf.readSet[k]);
  }

  lemma NotSerialEitherWay(log: seq<Applied>, a: Applied, b: Applied, x: Key, y: Key, v: Text)
    requires log == [] + [a] + [b] && a.pledge.iso == SER && b.pledge.iso == SER && x != y
    requires a.pledge.buf == ReadWrite(x, y, v) && b.pledge.buf == ReadWrite(y, x, v)
    ensures |log| == 2 && log[0] == a && log[1] == b && !I.SerialOrder(log) && !I.SerialOrder([log[1], log[0]])
  {
    assert log == [a, b];
    StaleSecond(a, b, y);
    StaleSecond(b, a, x);
  }

  // ---------------------------------------------------------------- write skew: the run

  /** Two SER transactions that have begun. */
  lemma TwoBegin(c0: C.State, iso: Isolation) returns (c: C.State, t: TxId, u: TxId)
    requires Progress.Idle(c0)
    ensures C.Reachable(c) && c.clock == 0x1_0003 && c.net == {} && c.sites == c0.sites && t != u
    ensures t in c.coords && c.coords[t] == C.Coord(c.coords[t].snapshot, iso, {}, map[], C.Active)
    ensures u in c.coords && c.coords[u] == C.Coord(c.coords[u].snapshot, iso, {}, map[], C.Active)
  {
    Runs.InitialReachable(c0);
    FirstTick();
    SlowClock(0x1_0000);
    SlowClock(0x1_0001);
    SlowClock(0x1_0002);
    c, t := Runs.BeginStep(c0, iso);
    c, u := Runs.BeginStep(c, iso);
  }

  /** The router knows two transactions that use one shard, and no message is around. */
  ghost predicate TwoOnOne(c: C.State, t: TxId, u: TxId, s: ShardId, phase: C.Phase, phase': C.Phase) {
    && c.net == {} && s in c.sites && t != u && t in c.coords && u in c.coords
    && c.coords[t].iso == SER && c.coords[t].involved == {s} && c.coords[t].phase == phase
    && c.coords[u].iso == SER && c.coords[u].involved == {s} && c.coords[u].phase == phase'
  }

  lemma BothStart(c0: C.State, t: TxId, u: TxId, s: ShardId, s1: Site, s2: Site) returns (c: C.State)
    requires C.Reachable(c0) && c0.net == {} && s in c0.sites && Blank(c0.sites[s]) && t != u
    requires t in c0.coords && c0.coords[t] == C.Coord(c0.coords[t].snapshot, SER, {}, map[], C.Active)
    requires u in c0.coords && c0.coords[u] == C.Coord(c0.coords[u].snapshot, SER, {}, map[], C.Active)
    requires s1 == Start(c0.sites[s], t) && s2 == Start(s1, u) && u !in s1.st.buffers
    ensures C.Reachable(c) && c.clock == c0.clock && TwoOnOne(c, t, u, s, C.Active, C.Active)
    ensures c.coords[t].results == map[] && c.coords[u].results == map[] && c.sites[s] == s2
    ensures c.coords[t].snapshot == c0.coords[t].snapshot && c.coords[u].snapshot == c0.coords[u].snapshot
  {
    c := Runs.StartStep(c0, t, s);
    assert c.sites[s] == s1 && c.coords[t].involved == {s};
    c := Runs.StartStep(c, u, s);
    assert c.coords[u].involved == {s};
  }

  lemma BothRead(c0: C.State, t: TxId, u: TxId, s: ShardId, x: Key, y: Key, s3: Site, s4: Site) returns (c: C.State)
    requires C.Reachable(c0) && TwoOnOne(c0, t, u, s, C.Active, C.Active) && c0.sites[s].st.ts == 0
    requires s3 == Read(c0.sites[s], t, x, c0.coords[t].snapshot, 1) && s3.st.ts == 0
    requires s4 == Read(s3, u, y, c0.coords[u].snapshot, 1)
    ensures C.Reachable(c) && c == c0.(sites := c0.sites[s := s4])
  {
    FirstTick();
    c := Runs.ReadStep(c0, t, s, x);
    c := Runs.ReadStep(c, u, s, y);
  }

  lemma BothWrite(c0: C.State, t: TxId, u: TxId, s: ShardId, x: Key, y: Key, v: Text, s5: Site, s6: Site)
    returns (c: C.State)
    requires C.Reachable(c0) && TwoOnOne(c0, t, u, s, C.Active, C.Active) && c0.sites[s].st.ts == 0
    requires s5 == Write(c0.sites[s], t, y, v, false, 1) && s5.st.ts == 0x1_0000
    requires s6 == Write(s5, u, x, v, false, 1)
    ensures C.Reachable(c) && c == c0.(sites := c0.sites[s := s6])
  {
    FirstTick();
    SlowClock(0x1_0000);
    c := Runs.TwoWriteSteps(c0, t, y, u, x, s, v, s5, s6);
  }

  /** They start, read and write on the shard. */
  lemma CrossRun(c0: C.State, t: TxId, u: TxId, s: ShardId, x: Key, y: Key, v: Text) returns (c: C.State)
    requires C.Reachable(c0) && c0.net == {} && s in c0.sites && Blank(c0.sites[s]) && t != u && x != y
    requires t in c0.coords && c0.coords[t] == C.Coord(c0.coords[t].snapshot, SER, {}, map[], C.Active)
    requires u in c0.coords && c0.coords[u] == C.Coord(c0.coords[u].snapshot, SER, {}, map[], C.Active)
    ensures C.Reachable(c) && c.clock == c0.clock && TwoOnOne(c, t, u, s, C.Active, C.Active)
    ensures c.coords[t].results == map[] && c.coords[u].results == map[] && Crossed(c.sites[s], t, u, x, y, v)
  {
    var s1, s2, s3, s4, s5, s6 :=
      CrossedSteps(c0.sites[s], t, u, x, y, v, c0.coords[t].snapshot, c0.coords[u].snapshot);
    c := BothStart(c0, t, u, s, s1, s2);
    c := BothRead(c, t, u, s, x, y, s3, s4);
    assert c.sites[s] == s4;
    c := BothWrite(c, t, u, s, x, y, v, s5, s6);
  }

  /** Both are asked and both are heard. */
  lemma BothVote(c0: C.State, t: TxId, u: TxId, s: ShardId, x: Key, y: Key, v: Text) returns (c: C.State)
    requires C.Reachable(c0) && TwoOnOne(c0, t, u, s, C.Active, C.Active) && x != y
    requires c0.coords[t].results == map[] && c0.coords[u].results == map[] && Crossed(c0.sites[s], t, u, x, y, v)
    ensures C.Reachable(c) && c.clock == c0.clock && TwoOnOne(c, t, u, s, C.Preparing, C.Preparing)
    ensures c.coords[t].results == map[s := 0x1_0002] && c.coords[u].results == map[s := 0x1_0003]
    ensures var site := c.sites[s];
            && Inv(site) && site.log == [] && site.st.ts == 0x1_0003
            && Promised(site, t) && site.pledges[t].buf == ReadWrite(x, y, v) && site.pledges[t].iso == SER
            && Promised(site, u) && site.pledges[u].buf == ReadWrite(y, x, v) && site.pledges[u].iso == SER
  {
    SlowClock(0x1_0001);
    SlowClock(0x1_0002);
    var s1, s2 := BothPromised(c0.sites[s], t, u, x, y, v);
    c := Runs.VoteRound(c0, t, s, 0x1_0002, s1);
    assert c.sites[s] == s1;
    c := Runs.VoteRound(c, u, s, 0x1_0003, s2);
  }

  /** Both are decided and applied. */
  lemma BothDecide(c0: C.State, t: TxId, u: TxId, s: ShardId) returns (c: C.State)
    requires C.Reachable(c0) && c0.clock == 0x1_0003 && TwoOnOne(c0, t, u, s, C.Preparing, C.Preparing)
    requires c0.coords[t].results == map[s := 0x1_0002] && c0.coords[u].results == map[s := 0x1_0003]
    requires var site := c0.sites[s];
             Inv(site) && site.log == [] && site.st.ts == 0x1_0003 && Promised(site, t) && Promised(site, u)
    ensures C.Reachable(c) && TwoOnOne(c, t, u, s, C.Committed(0x1_0004), C.Committed(0x1_0005))
    ensures c.sites[s].log == [] + [Applied(t, 0x1_0004, c0.sites[s].pledges[t])]
                                 + [Applied(u, 0x1_0005, c0.sites[s].pledges[u])]
  {
    SlowUpdate(0x1_0003, 0x1_0002);
    SlowUpdate(0x1_0003, 0x1_0004);
    SlowUpdate(0x1_0004, 0x1_0003);
    SlowUpdate(0x1_0005, 0x1_0005);
    var s1, s2 := BothCommit(c0.sites[s], t, u, 0x1_0004, 0x1_0005);
    c := Runs.OutcomeRound(c0, t, s, 0x1_0002, 0x1_0004, s1);
    assert c.sites[s] == s1 && c.coords[u] == c0.coords[u];
    c := Runs.OutcomeRound(c, u, s, 0x1_0003, 0x1_0005, s2);
  }

  /** Write skew, from any idle system: two SER transactions commit, although each read a
      key, missing, that the other then wrote; in neither order is the result serial.
      Prepare takes no read locks. */
  lemma SerAllowsWriteSkew(c0: C.State, s: ShardId, x: Key, y: Key, v: Text) returns (c: C.State)
    requires Progress.Idle(c0) && s in c0.sites && x != y
    ensures C.Reachable(c) && s in c.sites
    ensures var log := c.sites[s].log;
            && |log| == 2 && log[0].pledge.iso == SER && log[1].pledge.iso == SER
            && !I.SerialOrder(log) && !I.SerialOrder([log[1], log[0]])
  {
    var t, u;
    c, t, u := TwoBegin(c0, SER);
    c := CrossRun(c, t, u, s, x, y, v);
    c := BothVote(c, t, u, s, x, y, v);
    var site := c.sites[s];
    c := BothDecide(c, t, u, s);
    NotSerialEitherWay(c.sites[s].log, Applied(t, 0x1_0004, site.pledges[t]), Applied(u, 0x1_0005, site.pledges[u]),
                       x, y, v);
  }
}
