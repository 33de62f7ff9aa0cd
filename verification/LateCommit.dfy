/** What a decision does that reaches its shards late: a reader that began after it can be
    answered twice differently, and an SER reader can commit although no order of the two
    transactions is serial for the system, while each shard by itself is serial. */
module LateCommit {
  import opened Basics
  import Hlc
  import S = Store
  import B = Buffer
  import I = Isolation
  import R = Router
  import C = Cluster
  import ClusterInvariant
  import Guarantees
  import Progress
  import Reread
  import Runs
  import SystemOrder
  import opened Shard
  import opened Site
  import opened SiteInvariant
  import opened Solo
  import opened TwoShards

  // ---------------------------------------------------------------- the reader on one shard

  function Missing(k: Key): B.ReadRecord {
    B.ReadRecord(k, 0, false)
  }

  function Found(k: Key): B.ReadRecord {
    B.ReadRecord(k, AT, true)
  }

  function Only(r: B.ReadRecord): B.Buf {
    B.Buf(map[], [], map[r.key := r])
  }

  /** The reader has this buffer and has not voted. */
  ghost predicate Has(site: Site, u: TxId, b: B.Buf) {
    u in site.st.buffers && site.st.buffers[u] == b && !IsPrepared(site, u)
  }

  /** The writer's commit has not come yet. */
  ghost predicate Early(site: Site, t: TxId, u: TxId, k: Key, v: Text, b: B.Buf) {
    && Inv(site) && site.log == [] && t != u && Has(site, u, b) && IsPrepared(site, t) && t in site.pledges
    && site.pledges[t] == Pledge(One(Op(k, v, false)), SI, 0x1_0001, 0, site.pledges[t].marks)
  }

  /** The writer's commit. */
  ghost predicate Wrote(e: Applied, t: TxId, k: Key, v: Text) {
    e == Applied(t, AT, Pledge(One(Op(k, v, false)), SI, 0x1_0001, 0, e.pledge.marks))
  }

  /** It has come, and nothing else. */
  ghost predicate Late(site: Site, t: TxId, u: TxId, k: Key, v: Text, b: B.Buf) {
    Inv(site) && |site.log| == 1 && Wrote(site.log[0], t, k, v) && t != u && Has(site, u, b)
  }

  lemma ReaderStarts(site: Site, t: TxId, u: TxId, k: Key, v: Text) returns (site': Site)
    requires Holding(site, t, k, v) && t != u
    ensures site' == Start(site, u) && Early(site', t, u, k, v, B.EMPTY) && site'.st.ts == site.st.ts
  {
    site' := Start(site, u);
    StartKeeps(site, u);
  }

  lemma OneRecord(r: B.ReadRecord, b: B.Buf)
    requires b == B.EMPTY || (exists r' :: b == Only(r') && r'.key == r.key)
    ensures B.RecordRead(b, r) == Only(r)
  {
  }

  /** Before the commit comes the key is missing; the read takes no tick. */
  lemma ReadsMissing(site: Site, t: TxId, u: TxId, k: Key, v: Text, snapshot: u64) returns (site': Site)
    requires Early(site, t, u, k, v, B.EMPTY) && Slow(site.st.ts)
    ensures site' == Read(site, u, k, snapshot, 1) && Early(site', t, u, k, v, Only(Missing(k)))
    ensures site'.st.ts == site.st.ts && OnRead(site.st, u, k, snapshot, 0).1 == Ok(NOT_FOUND)
  {
    SlowClock(site.st.ts);
    site' := Read(site, u, k, snapshot, 1);
    ReadKeeps(site, u, k, snapshot, 1);
    OneRecord(Missing(k), B.EMPTY);
  }

  /** The commit comes, whatever the reader has read. */
  lemma CommitComes(site: Site, t: TxId, u: TxId, k: Key, v: Text, b: B.Buf) returns (site': Site)
    requires Early(site, t, u, k, v, b) && Slow(site.st.ts)
    ensures site' == Commit(site, t, AT, 1).0 && Late(site', t, u, k, v, b)
    ensures site'.st.ts == Max(site.st.ts, AT) + 1
  {
    SlowUpdate(site.st.ts, AT);
    site' := Commit(site, t, AT, 1).0;
    CommitKeeps(site, t, AT, 1);
    assert Settled(site, t);
    CommitState(site, t, AT, 1);
    CommitLeavesOthers(site, t, AT, 1, u);
  }

  /** What the shard shows then. */
  lemma LateHistory(site: Site, t: TxId, u: TxId, k: Key, v: Text, b: B.Buf)
    requires Late(site, t, u, k, v, b)
    ensures S.VersionsOf(site.st.data, k) == History(site.log, k) == [S.VersionedValue(v, AT, false, t)]
  {
    ReplayIsHistory(site.log, k);
    assert site.log[..0] == [];
  }

  lemma OneVersion(v: Text, t: TxId, snapshot: u64)
    requires AT <= snapshot < MAX_U64
    ensures S.GetAt([S.VersionedValue(v, AT, false, t)], snapshot) == Ok(S.VersionedValue(v, AT, false, t))
  {
  }

  lemma FoundShape(site: Site, u: TxId, k: Key, snapshot: u64, e: S.VersionedValue)
    requires u in site.st.buffers && k !in site.st.buffers[u].writes
    requires S.GetAt(S.VersionsOf(site.st.data, k), snapshot) == Ok(e)
    ensures var site' := Read(site, u, k, snapshot, 1);
            && site'.st == site.st.(ts := Hlc.TickTs(site.st.ts, 1), buffers :=
                 site.st.buffers[u := B.RecordRead(site.st.buffers[u], B.ReadRecord(k, e.version, true))])
            && site' == site.(st := site'.st)
            && OnRead(site.st, u, k, snapshot, 0).1 == Ok(ReadReply(e.value, e.version, true))
  {
  }

  /** After the commit the key is found. */
  lemma ReadsFound(site: Site, t: TxId, u: TxId, k: Key, v: Text, b: B.Buf, snapshot: u64) returns (site': Site)
    requires Late(site, t, u, k, v, b) && (b == B.EMPTY || b == Only(Missing(k))) && Slow(site.st.ts)
    requires AT <= snapshot < MAX_U64
    ensures site' == Read(site, u, k, snapshot, 1) && Late(site', t, u, k, v, Only(Found(k)))
    ensures site'.st.ts == site.st.ts + 1 && OnRead(site.st, u, k, snapshot, 0).1 == Ok(ReadReply(v, AT, true))
  {
    SlowClock(site.st.ts);
    site' := Read(site, u, k, snapshot, 1);
    ReadKeeps(site, u, k, snapshot, 1);
    LateHistory(site, t, u, k, v, b);
    OneVersion(v, t, snapshot);
    FoundShape(site, u, k, snapshot, S.VersionedValue(v, AT, false, t));
    OneRecord(Found(k), b);
  }

  lemma ReadValidates(data: S.Data, r: B.ReadRecord)
    requires ReadCurrent(data, r)
    ensures Validates(data, Only(r), SER) && Only(r).readSet != map[]
  {
    assert B.Ops(Only(r)) == [];
    assert r.key in Only(r).readSet;
  }

  /** A transaction that only read one key, and read what is current, is promised. */
  lemma ReaderVotes(site: Site, u: TxId, r: B.ReadRecord) returns (site': Site)
    requires Inv(site) && Has(site, u, Only(r)) && ReadCurrent(site.st.data, r) && Slow(site.st.ts)
    ensures Prepare(site, u, SER, 1) == (site', Ballot(VoteCommit, site.st.ts + 1, None))
    ensures Inv(site') && site'.log == site.log && site'.st.ts == site.st.ts + 1 && IsPrepared(site', u)
    ensures u in site'.pledges
    ensures site'.pledges[u] == Pledge(Only(r), SER, site.st.ts + 1, |site.log|, MarksOf(site, u))
    ensures forall w :: w != u ==> SameFor(site, site', w)
  {
    ReaderSaysYes(site, u, r);
    ReaderPromised(site, u, Only(r));
    BallotShape(site, u);
    site' := Prepare(site, u, SER, 1).0;
  }

  lemma ReaderPromised(site: Site, u: TxId, b: B.Buf)
    requires Inv(site) && Has(site, u, b) && Slow(site.st.ts) && Prepare(site, u, SER, 1).1.vote == VoteCommit
    ensures var (site', ballot) := Prepare(site, u, SER, 1);
            && Inv(site') && IsPrepared(site', u) && u in site'.pledges
            && site'.pledges[u] == Pledge(b, SER, ballot.time, |site.log|, MarksOf(site, u))
            && forall w :: w != u ==> SameFor(site, site', w)
  {
    SlowClock(site.st.ts);
    PrepareKeeps(site, u, SER, 1);
  }

  lemma BallotShape(site: Site, u: TxId)
    requires u in site.st.buffers && Slow(site.st.ts) && Prepare(site, u, SER, 1).1.vote == VoteCommit
    ensures Prepare(site, u, SER, 1).1 == Ballot(VoteCommit, site.st.ts + 1, None)
    ensures Prepare(site, u, SER, 1).0.log == site.log && Prepare(site, u, SER, 1).0.st.ts == site.st.ts + 1
  {
    SlowClock(site.st.ts);
    PrepareShape(site, u, SER, 1);
  }

  lemma ReaderSaysYes(site: Site, u: TxId, r: B.ReadRecord)
    requires Inv(site) && Has(site, u, Only(r)) && ReadCurrent(site.st.data, r)
    ensures Prepare(site, u, SER, 1).1.vote == VoteCommit
  {
    ReadValidates(site.st.data, r);
    VoteValidates(site, u, SER, 1);
  }

  /** The reader's commit time. */
  const LATER: u64 := 0x1_0006

  /** The reader's commit. */
  ghost predicate SawOnly(e: Applied, u: TxId, r: B.ReadRecord, window: nat) {
    e.tx == u && e.at == LATER && e.pledge.buf == Only(r) && e.pledge.iso == SER && e.pledge.window == window
  }

  /** On the shard that the writer's commit reaches last. */
  lemma MissedIt(site: Site, t: TxId, u: TxId, k: Key, v: Text) returns (s1: Site, s2: Site, s3: Site)
    requires Early(site, t, u, k, v, Only(Missing(k))) && site.st.ts == 0x1_0001
    ensures Prepare(site, u, SER, 1) == (s1, Ballot(VoteCommit, 0x1_0002, None)) && s1.st.ts == 0x1_0002
    ensures Commit(s1, u, LATER, 1).0 == s2 && s2.st.ts == LATER + 1 && Commit(s2, t, AT, 1).0 == s3
    ensures |s3.log| == 2 && SawOnly(s3.log[0], u, Missing(k), 0) && Wrote(s3.log[1], t, k, v)
  {
    NothingYet(site, k);
    s1 := ReaderVotes(site, u, Missing(k));
    assert SameFor(site, s1, t);
    s2 := ReaderCommits(s1, u);
    CommitLeavesOthers(s1, u, LATER, 1, t);
    s3 := Commit(s2, t, AT, 1).0;
    SlowUpdate(LATER + 1, AT);
    CommitKeeps(s2, t, AT, 1);
    assert s1.log == [];
  }

  lemma NothingYet(site: Site, k: Key)
    requires Inv(site) && site.log == []
    ensures ReadCurrent(site.st.data, Missing(k))
  {
    ReplayIsHistory(site.log, k);
  }

  lemma ReaderCommits(s1: Site, u: TxId) returns (s2: Site)
    requires Inv(s1) && IsPrepared(s1, u) && Slow(s1.st.ts) && s1.st.ts < LATER
    requires u in s1.pledges && s1.pledges[u].time < LATER
    ensures s2 == Commit(s1, u, LATER, 1).0 && Inv(s2) && s2.st.ts == LATER + 1
    ensures s2.log == s1.log + [Applied(u, LATER, s1.pledges[u])]
  {
    SlowUpdate(s1.st.ts, LATER);
    s2 := Commit(s1, u, LATER, 1).0;
    CommitKeeps(s1, u, LATER, 1);
    assert Settled(s1, u);
    CommitState(s1, u, LATER, 1);
  }

  /** On the shard that it reached first. */
  lemma SawIt(site: Site, t: TxId, u: TxId, k: Key, v: Text) returns (s1: Site, s2: Site)
    requires Late(site, t, u, k, v, Only(Found(k))) && site.st.ts == 0x1_0004
    ensures Prepare(site, u, SER, 1) == (s1, Ballot(VoteCommit, 0x1_0005, None)) && s1.st.ts == 0x1_0005
    ensures Commit(s1, u, LATER, 1).0 == s2
    ensures |s2.log| == 2 && Wrote(s2.log[0], t, k, v) && SawOnly(s2.log[1], u, Found(k), 1)
  {
    LateHistory(site, t, u, k, v, Only(Found(k)));
    FoundIsCurrent(site, k, v, t);
    s1 := ReaderVotes(site, u, Found(k));
    s2 := ReaderCommits(s1, u);
  }

  lemma FoundIsCurrent(site: Site, k: Key, v: Text, t: TxId)
    requires S.VersionsOf(site.st.data, k) == [S.VersionedValue(v, AT, false, t)]
    ensures ReadCurrent(site.st.data, Found(k))
  {
  }

  // ---------------------------------------------------------------- the reader in the cluster

  /** The router knows the writer, decided, and the reader. */
  ghost predicate Both(c: C.State, t: TxId, u: TxId, s: ShardId, r: ShardId, ku: C.Coord) {
    && s != r && s in c.sites && r in c.sites && t != u && c.coords.Keys == {t, u}
    && c.coords[t].phase == C.Committed(AT) && c.coords[t].involved == {s, r} && c.coords[u] == ku
    && forall x <- c.sites :: x != s && x != r ==> c.sites[x].log == []
  }

  function Reader(s: ShardId, r: ShardId, results: map<ShardId, u64>, phase: C.Phase): C.Coord {
    C.Coord(0x1_0004, SER, {s, r}, results, phase)
  }

  /** It has begun, after the decision, and started on both shards before they heard of it. */
  lemma ReaderBegins(c0: C.State, s: ShardId, r: ShardId, k: Key, v: Text) returns (c: C.State, t: TxId, u: TxId)
    requires Progress.Idle(c0) && s in c0.sites && r in c0.sites && s != r
    ensures C.Reachable(c) && c.clock == 0x1_0004 && c.net == {C.DoCommit(t, s, AT), C.DoCommit(t, r, AT)}
    ensures Both(c, t, u, s, r, Reader(s, r, map[], C.Active))
    ensures Early(c.sites[s], t, u, k, v, B.EMPTY) && c.sites[s].st.ts == 0x1_0001
    ensures Early(c.sites[r], t, u, k, v, B.EMPTY) && c.sites[r].st.ts == 0x1_0001
  {
    c, t := DecidedOnTwo(c0, s, r, k, v);
    SlowClock(0x1_0002);
    SlowClock(0x1_0003);
    c, u := Runs.BeginStep(c, SER);
    var s1 := ReaderStarts(c.sites[s], t, u, k, v);
    var r1 := ReaderStarts(c.sites[r], t, u, k, v);
    c := StartsOnBoth(c, t, u, s, r, s1, r1);
  }

  lemma StartsOnBoth(c0: C.State, t: TxId, u: TxId, s: ShardId, r: ShardId, s1: Site, r1: Site) returns (c: C.State)
    requires C.Reachable(c0) && Both(c0, t, u, s, r, C.Coord(0x1_0004, SER, {}, map[], C.Active))
    requires u !in c0.sites[s].st.buffers && u !in c0.sites[r].st.buffers
    requires s1 == Start(c0.sites[s], u) && r1 == Start(c0.sites[r], u)
    ensures C.Reachable(c) && c.clock == c0.clock && c.net == c0.net
    ensures Both(c, t, u, s, r, Reader(s, r, map[], C.Active)) && c.sites[s] == s1 && c.sites[r] == r1
  {
    c := Runs.StartStep(c0, u, s);
    var c1 := c;
    assert c1.sites[r] == c0.sites[r] && c1.coords[u] == C.Coord(0x1_0004, SER, {s}, map[], C.Active);
    c := Runs.StartStep(c1, u, r);
    assert c.coords[u].involved == {s, r};
  }

  // ---------------------------------------------------------------- two answers

  /** From any idle system with two shards: an SER reader is told that a key is missing; a
      commit timed below its snapshot arrives; asked again, the shard finds the key. Only
      the second answer is recorded, and with it the reader votes COMMIT. */
  lemma ReadsTwice(c0: C.State, s: ShardId, r: ShardId, k: Key, v: Text) returns (c: C.State, t: TxId, u: TxId)
    requires Progress.Idle(c0) && s in c0.sites && r in c0.sites && s != r
    ensures C.Reachable(c) && C.Legal(c, [C.Read(u, r, k, 1), C.Commit(t, r, AT, 1)])
    ensures Reread.Asks(c, u, r, k) && c.coords[u].iso == SER && AT <= c.coords[u].snapshot
    ensures Reread.Answer(c, u, r, k) == Ok(NOT_FOUND)
    ensures var c2 := C.Run(c, [C.Read(u, r, k, 1), C.Commit(t, r, AT, 1)]);
            && Reread.Asks(c2, u, r, k) && Reread.Answer(c2, u, r, k) == Ok(ReadReply(v, AT, true))
            && C.Enabled(c2, C.Read(u, r, k, 1))
            && var site := C.Next(c2, C.Read(u, r, k, 1)).sites[r];
               && u in site.st.buffers && site.st.buffers[u].readSet == map[k := Found(k)]
               && Prepare(site, u, SER, 1).1.vote == VoteCommit
  {
    c, t, u := ReaderBegins(c0, s, r, k, v);
    var r1 := ReadsMissing(c.sites[r], t, u, k, v, 0x1_0004);
    var r2 := CommitComes(r1, t, u, k, v, Only(Missing(k)));
    var r3 := ReadsFound(r2, t, u, k, v, Only(Missing(k)), 0x1_0004);
    LateHistory(r3, t, u, k, v, Only(Found(k)));
    FoundIsCurrent(r3, k, v, t);
    ReaderSaysYes(r3, u, Found(k));
    ReadAndCommit(c, t, u, s, r, k, r1, r2);
  }

  lemma ReadAndCommit(c: C.State, t: TxId, u: TxId, s: ShardId, r: ShardId, k: Key, r1: Site, r2: Site)
    requires Both(c, t, u, s, r, Reader(s, r, map[], C.Active)) && C.DoCommit(t, r, AT) in c.net
    requires c.sites[r].st.ts == 0x1_0001 && r1 == Read(c.sites[r], u, k, 0x1_0004, 1) && r1.st.ts == 0x1_0001
    requires r2 == Commit(r1, t, AT, 1).0 && Slow(r2.st.ts)
    ensures C.Legal(c, [C.Read(u, r, k, 1), C.Commit(t, r, AT, 1)])
    ensures var c2 := C.Run(c, [C.Read(u, r, k, 1), C.Commit(t, r, AT, 1)]);
            c2.coords == c.coords && c2.sites == c.sites[r := r2] && C.Enabled(c2, C.Read(u, r, k, 1))
  {
    SlowClock(0x1_0001);
    SlowUpdate(0x1_0001, AT);
    SlowClock(r2.st.ts);
    Runs.TwoActions(c, C.Read(u, r, k, 1), C.Commit(t, r, AT, 1));
    Runs.NextSite(c.sites, r, r1, r2);
  }

  // ---------------------------------------------------------------- no order at all

  /** The reader has read both shards: missing where the commit has not come, found where it has. */
  lemma ReadsBoth(c0: C.State, t: TxId, u: TxId, s: ShardId, r: ShardId, k: Key, v: Text) returns (c: C.State)
    requires C.Reachable(c0) && Both(c0, t, u, s, r, Reader(s, r, map[], C.Active))
    requires c0.clock == 0x1_0004 && c0.net == {C.DoCommit(t, s, AT), C.DoCommit(t, r, AT)}
    requires Early(c0.sites[s], t, u, k, v, B.EMPTY) && c0.sites[s].st.ts == 0x1_0001
    requires Early(c0.sites[r], t, u, k, v, B.EMPTY) && c0.sites[r].st.ts == 0x1_0001
    ensures C.Reachable(c) && Both(c, t, u, s, r, Reader(s, r, map[], C.Active))
    ensures c.clock == 0x1_0004 && c.net == {C.DoCommit(t, s, AT)}
    ensures Early(c.sites[s], t, u, k, v, Only(Missing(k))) && c.sites[s].st.ts == 0x1_0001
    ensures Late(c.sites[r], t, u, k, v, Only(Found(k))) && c.sites[r].st.ts == 0x1_0004
  {
    SlowClock(0x1_0001);
    var s1 := ReadsMissing(c0.sites[s], t, u, k, v, 0x1_0004);
    var r1 := CommitComes(c0.sites[r], t, u, k, v, B.EMPTY);
    var r2 := ReadsFound(r1, t, u, k, v, B.EMPTY, 0x1_0004);
    c := ThreeSteps(c0, t, u, s, r, k, s1, r1, r2);
  }

  lemma ReadOne(c0: C.State, t: TxId, u: TxId, s: ShardId, r: ShardId, k: Key, x: ShardId, x1: Site)
    returns (c: C.State)
    requires C.Reachable(c0) && Both(c0, t, u, s, r, Reader(s, r, map[], C.Active)) && (x == s || x == r)
    requires Slow(c0.sites[x].st.ts) && x1 == Read(c0.sites[x], u, k, 0x1_0004, 1)
    ensures C.Reachable(c) && Both(c, t, u, s, r, Reader(s, r, map[], C.Active))
    ensures c == c0.(sites := c0.sites[x := x1])
  {
    SlowClock(c0.sites[x].st.ts);
    c := Runs.ReadStep(c0, u, x, k);
  }

  lemma CommitOne(c0: C.State, t: TxId, u: TxId, s: ShardId, r: ShardId, ku: C.Coord, tx: TxId, x: ShardId, at: u64,
                  x1: Site) returns (c: C.State)
    requires C.Reachable(c0) && Both(c0, t, u, s, r, ku) && (x == s || x == r) && C.DoCommit(tx, x, at) in c0.net
    requires Slow(c0.sites[x].st.ts) && Slow(at) && x1 == Commit(c0.sites[x], tx, at, 1).0
    ensures C.Reachable(c) && Both(c, t, u, s, r, ku) && c.clock == c0.clock
    ensures c.net == c0.net - {C.DoCommit(tx, x, at)} && c.sites == c0.sites[x := x1]
  {
    SlowUpdate(c0.sites[x].st.ts, at);
    c := Runs.CommitStep(c0, tx, x, at);
  }

  lemma ThreeSteps(c0: C.State, t: TxId, u: TxId, s: ShardId, r: ShardId, k: Key, s1: Site, r1: Site, r2: Site)
    returns (c: C.State)
    requires C.Reachable(c0) && Both(c0, t, u, s, r, Reader(s, r, map[], C.Active))
    requires c0.net == {C.DoCommit(t, s, AT), C.DoCommit(t, r, AT)}
    requires c0.sites[s].st.ts == 0x1_0001 && c0.sites[r].st.ts == 0x1_0001
    requires s1 == Read(c0.sites[s], u, k, 0x1_0004, 1)
    requires r1 == Commit(c0.sites[r], t, AT, 1).0 && r1.st.ts == 0x1_0003 && r2 == Read(r1, u, k, 0x1_0004, 1)
    ensures C.Reachable(c) && Both(c, t, u, s, r, Reader(s, r, map[], C.Active))
    ensures c.clock == c0.clock && c.net == {C.DoCommit(t, s, AT)} && c.sites[s] == s1 && c.sites[r] == r2
  {
    c := ReadOne(c0, t, u, s, r, k, s, s1);
    c := CommitOne(c, t, u, s, r, Reader(s, r, map[], C.Active), t, r, AT, r1);
    assert c0.net - {C.DoCommit(t, r, AT)} == {C.DoCommit(t, s, AT)};
    c := ReadOne(c, t, u, s, r, k, r, r2);
  }

  /** It is asked, and both shards vote. */
  lemma ReaderAsked(c0: C.State, t: TxId, u: TxId, s: ShardId, r: ShardId) returns (c: C.State)
    requires C.Reachable(c0) && Both(c0, t, u, s, r, Reader(s, r, map[], C.Active)) && c0.net == {C.DoCommit(t, s, AT)}
    ensures C.Reachable(c) && Both(c, t, u, s, r, Reader(s, r, map[], C.Preparing))
    ensures c.clock == c0.clock && c.sites == c0.sites
    ensures c.net == {C.DoCommit(t, s, AT), C.AskPrepare(u, s), C.AskPrepare(u, r)}
  {
    c := Runs.AskStep(c0, u);
    assert (set x | x in {s, r} :: C.AskPrepare(u, x)) == {C.AskPrepare(u, s), C.AskPrepare(u, r)};
  }

  lemma FirstVoteIn(c0: C.State, t: TxId, u: TxId, s: ShardId, r: ShardId, s1: Site) returns (c: C.State)
    requires C.Reachable(c0) && Both(c0, t, u, s, r, Reader(s, r, map[], C.Preparing))
    requires c0.net == {C.DoCommit(t, s, AT), C.AskPrepare(u, s), C.AskPrepare(u, r)}
    requires c0.sites[s].st.ts == 0x1_0001
    requires Prepare(c0.sites[s], u, SER, 1) == (s1, Ballot(VoteCommit, 0x1_0002, None))
    ensures C.Reachable(c) && Both(c, t, u, s, r, Reader(s, r, map[s := 0x1_0002], C.Preparing))
    ensures c.clock == c0.clock && c.sites == c0.sites[s := s1]
    ensures c.net == {C.DoCommit(t, s, AT), C.AskPrepare(u, r)}
  {
    SlowClock(0x1_0001);
    c := Runs.VoteStep(c0, u, s, 0x1_0002);
    assert c0.net - {C.AskPrepare(u, s)} == {C.DoCommit(t, s, AT), C.AskPrepare(u, r)};
    assert map[][s := 0x1_0002] == map[s := 0x1_0002];
  }

  lemma SecondVoteIn(c0: C.State, t: TxId, u: TxId, s: ShardId, r: ShardId, r1: Site) returns (c: C.State)
    requires C.Reachable(c0) && Both(c0, t, u, s, r, Reader(s, r, map[s := 0x1_0002], C.Preparing))
    requires c0.net == {C.DoCommit(t, s, AT), C.AskPrepare(u, r)} && c0.sites[r].st.ts == 0x1_0004
    requires Prepare(c0.sites[r], u, SER, 1) == (r1, Ballot(VoteCommit, 0x1_0005, None))
    ensures C.Reachable(c) && Both(c, t, u, s, r, Reader(s, r, map[s := 0x1_0002, r := 0x1_0005], C.Preparing))
    ensures c.clock == c0.clock && c.sites == c0.sites[r := r1] && c.net == {C.DoCommit(t, s, AT)}
  {
    SlowClock(0x1_0004);
    c := Runs.VoteStep(c0, u, r, 0x1_0005);
    assert c0.net - {C.AskPrepare(u, r)} == {C.DoCommit(t, s, AT)};
    assert map[s := 0x1_0002][r := 0x1_0005] == map[s := 0x1_0002, r := 0x1_0005];
  }

  lemma LaterOfTwo(s: ShardId, r: ShardId)
    requires s != r
    ensures R.MaxTime(map[s := 0x1_0002, r := 0x1_0005]) == 0x1_0005
  {
    var times: map<ShardId, u64> := map[s := 0x1_0002, r := 0x1_0005];
    R.MaxTimeLaw(times);
    assert times[r] == 0x1_0005;
  }

  lemma ReaderDecided(c0: C.State, t: TxId, u: TxId, s: ShardId, r: ShardId) returns (c: C.State)
    requires C.Reachable(c0) && Both(c0, t, u, s, r, Reader(s, r, map[s := 0x1_0002, r := 0x1_0005], C.Preparing))
    requires c0.clock == 0x1_0004 && c0.net == {C.DoCommit(t, s, AT)}
    ensures C.Reachable(c) && c.sites == c0.sites
    ensures Both(c, t, u, s, r, Reader(s, r, map[s := 0x1_0002, r := 0x1_0005], C.Committed(LATER)))
    ensures c.net == {C.DoCommit(t, s, AT), C.DoCommit(u, s, LATER), C.DoCommit(u, r, LATER)}
  {
    LaterOfTwo(s, r);
    SlowUpdate(0x1_0004, 0x1_0005);
    assert c0.coords[u].results.Keys == {s, r};
    c := Runs.DecideStep(c0, u);
    assert (set x | x in {s, r} :: C.DoCommit(u, x, LATER)) == {C.DoCommit(u, s, LATER), C.DoCommit(u, r, LATER)};
  }

  /** The reader commits on both shards, and then the writer's commit comes. */
  lemma AllDelivered(c0: C.State, t: TxId, u: TxId, s: ShardId, r: ShardId, ku: C.Coord, s2: Site, s3: Site, r2: Site)
    returns (c: C.State)
    requires C.Reachable(c0) && Both(c0, t, u, s, r, ku)
    requires c0.net == {C.DoCommit(t, s, AT), C.DoCommit(u, s, LATER), C.DoCommit(u, r, LATER)}
    requires c0.sites[s].st.ts == 0x1_0002 && c0.sites[r].st.ts == 0x1_0005
    requires s2 == Commit(c0.sites[s], u, LATER, 1).0 && s2.st.ts == LATER + 1 && s3 == Commit(s2, t, AT, 1).0
    requires r2 == Commit(c0.sites[r], u, LATER, 1).0
    ensures C.Reachable(c) && Both(c, t, u, s, r, ku) && c.net == {} && c.sites[s] == s3 && c.sites[r] == r2
  {
    var c1 := CommitOne(c0, t, u, s, r, ku, u, s, LATER, s2);
    assert c1.net == {C.DoCommit(t, s, AT), C.DoCommit(u, r, LATER)} && c1.sites[r] == c0.sites[r];
    var c2 := CommitOne(c1, t, u, s, r, ku, u, r, LATER, r2);
    assert c2.net == {C.DoCommit(t, s, AT)} && c2.sites[s] == s2 && c2.sites[r] == r2;
    c := CommitOne(c2, t, u, s, r, ku, t, s, AT, s3);
    assert c.net == {};
  }

  /** Each log is serial by itself, and no order of the two transactions is serial for the
      system: one shard lacks the write before the reader, the other has it. */
  lemma NeitherOrder(c: C.State, t: TxId, u: TxId, s: ShardId, r: ShardId, k: Key, v: Text)
    requires C.Inv(c) && u in c.coords && Both(c, t, u, s, r, c.coords[u]) && c.coords[u].phase == C.Committed(LATER)
    requires |c.sites[s].log| == 2 && SawOnly(c.sites[s].log[0], u, Missing(k), 0) && Wrote(c.sites[s].log[1], t, k, v)
    requires |c.sites[r].log| == 2 && Wrote(c.sites[r].log[0], t, k, v) && SawOnly(c.sites[r].log[1], u, Found(k), 1)
    ensures SystemOrder.IsOrder(c, [t, u])
    ensures !SystemOrder.SystemSerial(c, [t, u]) && !SystemOrder.SystemSerial(c, [u, t])
    ensures forall x <- c.sites :: I.ReadsStayCurrent(c.sites[x].log)
  {
    SystemOrder.AppliedEffect(c, s, 0);
    SystemOrder.AppliedEffect(c, s, 1);
    SystemOrder.AppliedEffect(c, r, 1);
    StaleAfter(c, t, u, s, k, v);
    FoundTooSoon(c, t, u, r, k);
    TheirOrder(c, t, u, s, r);
    MissedIsCurrent(c.sites[s].log, t, u, k, v);
    SawIsCurrent(c.sites[r].log, t, u, k, v);
    OthersCurrent(c, t, u, s, r);
  }

  lemma TheirOrder(c: C.State, t: TxId, u: TxId, s: ShardId, r: ShardId)
    requires u in c.coords && Both(c, t, u, s, r, c.coords[u]) && c.coords[u].phase == C.Committed(LATER)
    ensures SystemOrder.IsOrder(c, [t, u])
  {
    assert [t, u][0] == t && [t, u][1] == u;
  }

  lemma MissedIsCurrent(log: seq<Applied>, t: TxId, u: TxId, k: Key, v: Text)
    requires |log| == 2 && SawOnly(log[0], u, Missing(k), 0) && Wrote(log[1], t, k, v)
    ensures I.ReadsStayCurrent(log)
  {
  }

  lemma SawIsCurrent(log: seq<Applied>, t: TxId, u: TxId, k: Key, v: Text)
    requires |log| == 2 && Wrote(log[0], t, k, v) && SawOnly(log[1], u, Found(k), 1)
    ensures I.ReadsStayCurrent(log)
  {
  }

  lemma OthersCurrent(c: C.State, t: TxId, u: TxId, s: ShardId, r: ShardId)
    requires u in c.coords && Both(c, t, u, s, r, c.coords[u])
    requires I.ReadsStayCurrent(c.sites[s].log) && I.ReadsStayCurrent(c.sites[r].log)
    ensures forall x <- c.sites :: I.ReadsStayCurrent(c.sites[x].log)
  {
    forall x | x in c.sites ensures I.ReadsStayCurrent(c.sites[x].log) {
      if x != s && x != r {
        assert c.sites[x].log == [];
      }
    }
  }

  lemma StaleAfter(c: C.State, t: TxId, u: TxId, s: ShardId, k: Key, v: Text)
    requires s in c.sites
    requires SystemOrder.Effect(c, t, s) != [] && Wrote(SystemOrder.Effect(c, t, s)[0], t, k, v)
    requires SystemOrder.Effect(c, u, s) != [] && SawOnly(SystemOrder.Effect(c, u, s)[0], u, Missing(k), 0)
    ensures !SystemOrder.SystemSerial(c, [t, u])
  {
    var order := [t, u];
    assert order[..1] == [t] && [t][..0] == [];
    assert SystemOrder.SerRead(c, order[1], s, k);
    assert k in SystemOrder.BoardAfter(c, order[..1])[s];
  }

  lemma FoundTooSoon(c: C.State, t: TxId, u: TxId, r: ShardId, k: Key)
    requires r in c.sites
    requires SystemOrder.Effect(c, u, r) != [] && SawOnly(SystemOrder.Effect(c, u, r)[0], u, Found(k), 1)
    ensures !SystemOrder.SystemSerial(c, [u, t])
  {
    var order := [u, t];
    assert order[..0] == [];
    assert SystemOrder.SerRead(c, order[0], r, k);
    assert k !in SystemOrder.BoardAfter(c, order[..0])[r];
  }

  /** From any idle system with two shards: an SER transaction commits, everything is
      delivered, and each shard is serial in the order of its log; but the reader saw the
      writer at one shard and not at the other, so commit-time order is not serial, and
      the reverse order is not either. */
  lemma SerialShardsNotSystem(c0: C.State, s: ShardId, r: ShardId, k: Key, v: Text)
    returns (c: C.State, t: TxId, u: TxId)
    requires Progress.Idle(c0) && s in c0.sites && r in c0.sites && s != r
    ensures C.Reachable(c) && c.net == {} && SystemOrder.IsOrder(c, [t, u])
    ensures forall x <- c.sites :: I.SerialOrder(c.sites[x].log) && I.ReadsStayCurrent(c.sites[x].log)
    ensures !SystemOrder.SystemSerial(c, [t, u]) && !SystemOrder.SystemSerial(c, [u, t])
  {
    c, t, u := ReaderBegins(c0, s, r, k, v);
    c := ReadsBoth(c, t, u, s, r, k, v);
    var s1, s2, s3 := MissedIt(c.sites[s], t, u, k, v);
    var r1, r2 := SawIt(c.sites[r], t, u, k, v);
    c := ReaderVoted(c, t, u, s, r, s1, r1);
    c := AllDelivered(c, t, u, s, r, c.coords[u], s2, s3, r2);
    ClusterInvariant.ReachableInv(c);
    NeitherOrder(c, t, u, s, r, k, v);
    forall x | x in c.sites ensures I.SerialOrder(c.sites[x].log) {
      Guarantees.SerializableIff(c, x);
    }
  }

  lemma ReaderVoted(c0: C.State, t: TxId, u: TxId, s: ShardId, r: ShardId, s1: Site, r1: Site) returns (c: C.State)
    requires C.Reachable(c0) && Both(c0, t, u, s, r, Reader(s, r, map[], C.Active))
    requires c0.clock == 0x1_0004 && c0.net == {C.DoCommit(t, s, AT)}
    requires c0.sites[s].st.ts == 0x1_0001 && c0.sites[r].st.ts == 0x1_0004
    requires Prepare(c0.sites[s], u, SER, 1) == (s1, Ballot(VoteCommit, 0x1_0002, None))
    requires Prepare(c0.sites[r], u, SER, 1) == (r1, Ballot(VoteCommit, 0x1_0005, None))
    ensures C.Reachable(c)
    ensures Both(c, t, u, s, r, Reader(s, r, map[s := 0x1_0002, r := 0x1_0005], C.Committed(LATER)))
    ensures c.net == {C.DoCommit(t, s, AT), C.DoCommit(u, s, LATER), C.DoCommit(u, r, LATER)}
    ensures c.sites[s] == s1 && c.sites[r] == r1
  {
    c := ReaderAsked(c0, t, u, s, r);
    c := FirstVoteIn(c, t, u, s, r, s1);
    c := SecondVoteIn(c, t, u, s, r, r1);
    c := ReaderDecided(c, t, u, s, r);
  }
}
