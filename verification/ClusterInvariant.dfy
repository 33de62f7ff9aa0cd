/** Every action of the cluster keeps its invariant. The premises of the shard steps
    (no write after the vote, a commit only after the shard's own COMMIT vote and at a
    later time, unique names) are discharged here from the router's behaviour. */
module ClusterInvariant {
  import opened Basics
  import Hlc
  import L = Locks
  import T = TxStatus
  import R = Router
  import SI = SiteInvariant
  import Shard
  import Site
  import opened Cluster

  // ---------------------------------------------------------------- frames

  ghost predicate NetSame(c: State, c': State, tx: TxId, s: ShardId) {
    forall m: Msg :: m.tx == tx && m.shard == s ==> (m in c.net <==> m in c'.net)
  }

  /** What the pair invariant reads of a shard is as it was. */
  ghost predicate SiteSame(site: Site.Site, site': Site.Site, tx: TxId) {
    && (tx in site.st.status <==> tx in site'.st.status)
    && (tx in site.st.status ==> site'.st.status[tx] == site.st.status[tx])
    && (tx in site.pledges <==> tx in site'.pledges)
    && (tx in site.pledges ==> site'.pledges[tx] == site.pledges[tx])
    && |site.log| <= |site'.log|
    && (forall i :: 0 <= i < |site.log| ==> site'.log[i] == site.log[i])
    && (forall i :: |site.log| <= i < |site'.log| ==> site'.log[i].tx != tx)
  }

  lemma PairFrame(c: State, c': State, tx: TxId, s: ShardId)
    requires tx in c.coords && s in c.sites && Pair(c, tx, s)
    requires tx in c'.coords && c'.coords[tx] == c.coords[tx]
    requires s in c'.sites && SiteSame(c.sites[s], c'.sites[s], tx) && NetSame(c, c', tx, s)
    ensures Pair(c', tx, s)
  {
    VotesFrame(c, c', tx, s);
    RecordsFrame(c, c', tx, s);
    DecisionFrame(c, c', tx, s);
  }

  lemma VotesFrame(c: State, c': State, tx: TxId, s: ShardId)
    requires tx in c.coords && s in c.sites && VotesTrue(c, tx, s)
    requires tx in c'.coords && c'.coords[tx] == c.coords[tx]
    requires s in c'.sites && SiteSame(c.sites[s], c'.sites[s], tx) && NetSame(c, c', tx, s)
    ensures VotesTrue(c', tx, s)
  {
  }

  lemma RecordsFrame(c: State, c': State, tx: TxId, s: ShardId)
    requires tx in c.coords && s in c.sites && RecordsTrue(c, tx, s)
    requires tx in c'.coords && c'.coords[tx] == c.coords[tx]
    requires s in c'.sites && SiteSame(c.sites[s], c'.sites[s], tx)
    ensures RecordsTrue(c', tx, s)
  {
    var k, site, site' := c.coords[tx], c.sites[s], c'.sites[s];
    if HasStatus(site, tx, T.Committed) {
      var e := Site.Applied(tx, k.phase.at, site.pledges[tx]);
      var i :| 0 <= i < |site.log| && site.log[i] == e;
      assert site'.log[i] == e;
    }
  }

  lemma DecisionFrame(c: State, c': State, tx: TxId, s: ShardId)
    requires tx in c.coords && s in c.sites && DecisionTrue(c, tx, s)
    requires tx in c'.coords && c'.coords[tx] == c.coords[tx]
    requires s in c'.sites && SiteSame(c.sites[s], c'.sites[s], tx) && NetSame(c, c', tx, s)
    ensures DecisionTrue(c', tx, s)
  {
  }

  /** A step of one shard for one transaction, and of the messages between it and the router. */
  ghost predicate Local(c: State, c': State, tx: TxId, s: ShardId) {
    && tx in c.coords && s in c.sites && s in c'.sites
    && c'.clock == c.clock && c'.timeline == c.timeline && c'.coords == c.coords
    && c'.sites == c.sites[s := c'.sites[s]]
    && (forall t :: t != tx ==> SiteSame(c.sites[s], c'.sites[s], t))
    && (forall t :: t != tx && t !in c.sites[s].st.buffers ==> t !in c'.sites[s].st.buffers)
    && (forall t, r {:trigger NetSame(c, c', t, r)} :: t != tx || r != s ==> NetSame(c, c', t, r))
  }

  lemma LocalPair(c: State, c': State, tx: TxId, s: ShardId, t: TxId, r: ShardId)
    requires Local(c, c', tx, s) && t in c.coords && r in c.sites && (t != tx || r != s) && Pair(c, t, r)
    ensures Pair(c', t, r)
  {
    assert NetSame(c, c', t, r);
    assert SiteSame(c.sites[r], c'.sites[r], t);
    PairFrame(c, c', t, r);
  }

  lemma LocalUnknown(c: State, c': State, tx: TxId, s: ShardId, t: TxId, r: ShardId)
    requires Local(c, c', tx, s) && t !in c.coords && r in c.sites && Unknown(c.sites[r], t)
    ensures Unknown(c'.sites[r], t)
  {
    assert SiteSame(c.sites[r], c'.sites[r], t);
  }

  lemma LocalStep(c: State, c': State, tx: TxId, s: ShardId)
    requires Inv(c) && Local(c, c', tx, s)
    requires Site.Inv(c'.sites[s])
    requires NetTrue(c') && Pair(c', tx, s)
    ensures Inv(c')
  {
    forall t, r | t in c'.coords && r in c'.sites ensures Pair(c', t, r) {
      if t != tx || r != s {
        LocalPair(c, c', tx, s, t, r);
      }
    }
    forall t | t in c'.coords ensures CoordTrue(c', t) {
      assert CoordTrue(c, t);
    }
    forall t, r | t !in c'.coords && r in c'.sites ensures Unknown(c'.sites[r], t) {
      LocalUnknown(c, c', tx, s, t, r);
    }
  }

  /** A step of the router for one transaction. */
  lemma CoordStep(c: State, c': State, tx: TxId)
    requires Inv(c) && tx in c'.coords && c'.sites == c.sites
    requires c'.coords == c.coords[tx := c'.coords[tx]]
    requires c.clock <= c'.clock && TimelineTrue(c')
    requires forall e <- c.timeline :: e in c'.timeline
    requires forall t, s :: t != tx ==> NetSame(c, c', t, s)
    requires NetTrue(c') && CoordTrue(c', tx)
    requires forall s <- c.sites :: Pair(c', tx, s)
    ensures Inv(c')
  {
    forall t, s | t in c'.coords && s in c'.sites ensures Pair(c', t, s) {
      if t != tx {
        assert Pair(c, t, s);
        assert SiteSame(c.sites[s], c'.sites[s], t);
        PairFrame(c, c', t, s);
      }
    }
    forall t | t in c'.coords ensures CoordTrue(c', t) {
      if t != tx {
        assert CoordTrue(c, t);
        var v: u64 :| v <= c.clock && t == R.TxName(v);
        assert v <= c'.clock;
      }
    }
  }

  // ---------------------------------------------------------------- the router's actions

  lemma InitialInv(c: State)
    requires Initial(c)
    ensures Inv(c)
  {
    forall s | s in c.sites ensures Site.Inv(c.sites[s]) {
      SI.FreshInv(c.sites[s]);
    }
  }

  /** Names are new: they carry a reading the clock had never shown. */
  lemma NameIsNew(c: State, now: u64)
    requires Inv(c) && Hlc.TickFits(c.clock, now)
    ensures R.TxName(Hlc.TickTs(c.clock, now)) !in c.coords
  {
    var version := Hlc.TickTs(c.clock, now);
    Hlc.TickGrowsIff(c.clock, now);
    if R.TxName(version) in c.coords {
      assert CoordTrue(c, R.TxName(version));
      var v: u64 :| v <= c.clock && R.TxName(version) == R.TxName(v);
      R.TxNameInjective(version, v);
    }
  }

  lemma BeginKeeps(c: State, iso: Shard.Isolation, now1: u64, now2: u64)
    requires Inv(c) && Hlc.TickFits(c.clock, now1) && Hlc.TickFits(Hlc.TickTs(c.clock, now1), now2)
    ensures Inv(AfterBegin(c, iso, now1, now2))
  {
    var version := Hlc.TickTs(c.clock, now1);
    var tx, c' := R.TxName(version), AfterBegin(c, iso, now1, now2);
    NameIsNew(c, now1);
    Hlc.TickGrowsIff(c.clock, now1);
    Hlc.TickGrowsIff(version, now2);
    assert c'.timeline[|c.timeline|] == Began(tx, c'.coords[tx].snapshot);
    forall s | s in c.sites ensures Pair(c', tx, s) {
      assert Unknown(c.sites[s], tx);
    }
    CoordStep(c, c', tx);
  }

  lemma AskAt(c: State, tx: TxId, s: ShardId)
    requires CanAsk(c, tx) && s in c.sites && Pair(c, tx, s)
    ensures Pair(AfterAsk(c, tx), tx, s)
  {
    assert RecordsTrue(c, tx, s) && VotesTrue(c, tx, s) && DecisionTrue(c, tx, s);
  }

  lemma AskKeeps(c: State, tx: TxId)
    requires Inv(c) && CanAsk(c, tx)
    ensures Inv(AfterAsk(c, tx))
  {
    var c' := AfterAsk(c, tx);
    assert CoordTrue(c, tx);
    forall s | s in c.sites ensures Pair(c', tx, s) {
      assert Pair(c, tx, s);
      AskAt(c, tx, s);
    }
    CoordStep(c, c', tx);
  }

  lemma AbortAllAt(c: State, tx: TxId, s: ShardId)
    requires CanGiveUp(c, tx) && s in c.sites && Pair(c, tx, s)
    ensures Pair(AbortAll(c, tx), tx, s)
  {
  }

  lemma GiveUpKeeps(c: State, tx: TxId)
    requires Inv(c) && CanGiveUp(c, tx)
    ensures Inv(AbortAll(c, tx))
  {
    var c' := AbortAll(c, tx);
    assert CoordTrue(c, tx);
    forall s | s in c.sites ensures Pair(c', tx, s) {
      assert Pair(c, tx, s);
      AbortAllAt(c, tx, s);
    }
    CoordStep(c, c', tx);
  }

  lemma DropAt(c: State, m: Msg, t: TxId, r: ShardId)
    requires m.VoteReply? && t in c.coords && r in c.sites && Pair(c, t, r)
    ensures Pair(Dropped(c, m), t, r)
  {
    assert VotesTrue(c, t, r) && RecordsTrue(c, t, r) && DecisionTrue(c, t, r);
  }

  /** A vote that is lost changes nothing that matters. */
  lemma DropKeeps(c: State, m: Msg)
    requires Inv(c) && m.VoteReply?
    ensures Inv(Dropped(c, m))
  {
    var c' := Dropped(c, m);
    forall t, r | t in c'.coords && r in c'.sites ensures Pair(c', t, r) {
      assert Pair(c, t, r);
      DropAt(c, m, t, r);
    }
    forall t | t in c'.coords ensures CoordTrue(c', t) {
      assert CoordTrue(c, t);
    }
  }

  lemma RecordedAt(c: State, tx: TxId, s: ShardId, time: u64, r: ShardId)
    requires tx in c.coords && c.coords[tx].phase.Preparing? && r in c.sites && Pair(c, tx, r)
    requires s in c.sites && tx in c.sites[s].pledges && c.sites[s].pledges[tx].time == time
    requires s == r ==> tx in c.sites[s].st.status
    ensures var k := c.coords[tx]; Pair(Moved(c, tx, k.(results := k.results[s := time])), tx, r)
  {
  }

  lemma HearKeeps(c: State, tx: TxId, s: ShardId, vote: Shard.Vote, time: u64)
    requires Inv(c) && CanHear(c, tx, s, vote, time)
    ensures Inv(AfterHear(c, tx, s, vote, time))
  {
    var m := VoteReply(tx, s, vote, time);
    var c1 := Dropped(c, m);
    DropKeeps(c, m);
    if vote == Shard.VoteCommit {
      assert m.tx == tx && m.shard == s && s in c.sites;
      assert Pair(c, tx, s) && CoordTrue(c1, tx);
      assert VotesTrue(c, tx, s) && RecordsTrue(c, tx, s);
      NoteKeeps(c1, tx, s, time);
    } else {
      GiveUpKeeps(c1, tx);
    }
  }

  lemma NoteKeeps(c: State, tx: TxId, s: ShardId, time: u64)
    requires Inv(c) && tx in c.coords && c.coords[tx].phase.Preparing?
    requires s in c.coords[tx].involved && s in c.sites
    requires tx in c.sites[s].pledges && c.sites[s].pledges[tx].time == time && tx in c.sites[s].st.status
    ensures var k := c.coords[tx]; Inv(Moved(c, tx, k.(results := k.results[s := time])))
  {
    var k := c.coords[tx];
    var c' := Moved(c, tx, k.(results := k.results[s := time]));
    assert CoordTrue(c, tx);
    forall r | r in c.sites ensures Pair(c', tx, r) {
      assert Pair(c, tx, r);
      RecordedAt(c, tx, s, time, r);
    }
    CoordStep(c, c', tx);
  }

  lemma DecideKeeps(c: State, tx: TxId, now: u64)
    requires Inv(c) && CanDecide(c, tx, now)
    ensures Inv(AfterDecide(c, tx, now))
  {
    var c' := AfterDecide(c, tx, now);
    assert CoordTrue(c, tx);
    DecideFits(c, tx, now);
    forall s | s in c.sites ensures Pair(c', tx, s) {
      assert Pair(c, tx, s);
      DecideAt(c, tx, now, s);
    }
    CoordStep(c, c', tx);
  }

  lemma DecideFits(c: State, tx: TxId, now: u64)
    requires TimelineTrue(c) && NetTrue(c) && CanDecide(c, tx, now) && CoordTrue(c, tx)
    ensures var c' := AfterDecide(c, tx, now);
            c.clock <= c'.clock && TimelineTrue(c') && NetTrue(c') && CoordTrue(c', tx)
  {
    var c' := AfterDecide(c, tx, now);
    R.CommitTimeAbove(c.clock, c.coords[tx].results, now);
    assert c'.timeline[|c.timeline|] == Decided(tx, c'.clock);
    var v: u64 :| v <= c.clock && tx == R.TxName(v);
    assert v <= c'.clock;
  }

  lemma DecideAt(c: State, tx: TxId, now: u64, s: ShardId)
    requires CanDecide(c, tx, now) && s in c.sites && Pair(c, tx, s) && CoordTrue(c, tx)
    ensures Pair(AfterDecide(c, tx, now), tx, s)
  {
    R.CommitTimeAbove(c.clock, c.coords[tx].results, now);
  }

  lemma RouterTickKeeps(c: State, now: u64)
    requires Inv(c) && Hlc.TickFits(c.clock, now)
    ensures Inv(c.(clock := Hlc.TickTs(c.clock, now)))
  {
    var c' := c.(clock := Hlc.TickTs(c.clock, now));
    Hlc.TickGrowsIff(c.clock, now);
    forall t, s | t in c'.coords && s in c'.sites ensures Pair(c', t, s) {
      assert Pair(c, t, s);
      assert SiteSame(c.sites[s], c'.sites[s], t);
      PairFrame(c, c', t, s);
    }
    forall t | t in c'.coords ensures CoordTrue(c', t) {
      assert CoordTrue(c, t);
      var v: u64 :| v <= c.clock && t == R.TxName(v);
      assert v <= c'.clock;
    }
  }

  // ---------------------------------------------------------------- the shards' actions

  lemma SameSite(site: Site.Site, site': Site.Site, t: TxId)
    requires SI.SameFor(site, site', t) && site'.log == site.log
    ensures SiteSame(site, site', t) && (t !in site.st.buffers ==> t !in site'.st.buffers)
  {
  }

  /** A transaction the router still calls active, or has asked without an answer yet,
      is not promised at a shard. */
  lemma NotPromised(c: State, tx: TxId, s: ShardId)
    requires Inv(c) && tx in c.coords && s in c.sites
    requires c.coords[tx].phase.Active? || AskPrepare(tx, s) in c.net
    ensures Unvoted(c.sites[s], tx) && !Site.IsPrepared(c.sites[s], tx) && Pair(c, tx, s)
  {
    assert Pair(c, tx, s);
    assert VotesTrue(c, tx, s) && RecordsTrue(c, tx, s);
  }

  /** A step that touches neither status, promises, log nor messages. */
  lemma QuietStep(c: State, site: Site.Site, tx: TxId, s: ShardId)
    requires Inv(c) && tx in c.coords && s in c.sites
    requires Site.Inv(site)
    requires forall t :: SiteSame(c.sites[s], site, t)
    requires forall t :: t != tx && t !in c.sites[s].st.buffers ==> t !in site.st.buffers
    ensures Inv(AtSite(c, s, site))
  {
    var c' := AtSite(c, s, site);
    assert Pair(c, tx, s);
    PairFrame(c, c', tx, s);
    LocalStep(c, c', tx, s);
  }

  lemma StartQuiet(site: Site.Site, tx: TxId, t: TxId)
    ensures SiteSame(site, Site.Start(site, tx), t)
    ensures t != tx && t !in site.st.buffers ==> t !in Site.Start(site, tx).st.buffers
  {
  }

  lemma StartedKeeps(c: State, tx: TxId, s: ShardId)
    requires Inv(c) && Calling(c, tx, s)
    ensures Inv(AtSite(c, s, Site.Start(c.sites[s], tx)))
  {
    var site := Site.Start(c.sites[s], tx);
    NotPromised(c, tx, s);
    SI.StartKeeps(c.sites[s], tx);
    forall t ensures SiteSame(c.sites[s], site, t)
            && (t != tx && t !in c.sites[s].st.buffers ==> t !in site.st.buffers) {
      StartQuiet(c.sites[s], tx, t);
    }
    QuietStep(c, site, tx, s);
  }

  lemma StartKeeps(c: State, tx: TxId, s: ShardId, heard: bool)
    requires Inv(c) && CanStart(c, tx, s)
    ensures Inv(AfterStart(c, tx, s, heard))
  {
    StartedKeeps(c, tx, s);
    InvolveKeeps(AtSite(c, s, Site.Start(c.sites[s], tx)), tx, s);
  }

  lemma InvolveKeeps(c: State, tx: TxId, s: ShardId)
    requires Inv(c) && CanAsk(c, tx) && s in c.sites
    ensures var k := c.coords[tx]; Inv(Moved(c, tx, k.(involved := k.involved + {s})))
  {
    var k := c.coords[tx];
    var c' := Moved(c, tx, k.(involved := k.involved + {s}));
    assert CoordTrue(c, tx);
    forall r | r in c.sites ensures Pair(c', tx, r) {
      assert Pair(c, tx, r);
      InvolvedAt(c, tx, s, r);
    }
    CoordStep(c, c', tx);
  }

  lemma InvolvedAt(c: State, tx: TxId, s: ShardId, r: ShardId)
    requires tx in c.coords && c.coords[tx].phase.Active? && r in c.sites && Pair(c, tx, r)
    ensures var k := c.coords[tx]; Pair(Moved(c, tx, k.(involved := k.involved + {s})), tx, r)
  {
  }

  lemma ReadQuiet(site: Site.Site, tx: TxId, key: Key, snapshot: u64, now: u64, t: TxId)
    ensures SiteSame(site, Site.Read(site, tx, key, snapshot, now), t)
    ensures t != tx && t !in site.st.buffers ==> t !in Site.Read(site, tx, key, snapshot, now).st.buffers
  {
  }

  lemma ReadKeeps(c: State, tx: TxId, s: ShardId, key: Key, now: u64)
    requires Inv(c) && CanCall(c, tx, s, now)
    ensures Inv(AfterRead(c, tx, s, key, now))
  {
    var snapshot := c.coords[tx].snapshot;
    var site := Site.Read(c.sites[s], tx, key, snapshot, now);
    NotPromised(c, tx, s);
    SI.ReadKeeps(c.sites[s], tx, key, snapshot, now);
    forall t ensures SiteSame(c.sites[s], site, t)
            && (t != tx && t !in c.sites[s].st.buffers ==> t !in site.st.buffers) {
      ReadQuiet(c.sites[s], tx, key, snapshot, now, t);
    }
    QuietStep(c, site, tx, s);
  }

  lemma WriteQuiet(site: Site.Site, tx: TxId, key: Key, value: Text, deleted: bool, now: u64, t: TxId)
    ensures SiteSame(site, Site.Write(site, tx, key, value, deleted, now), t)
    ensures t != tx && t !in site.st.buffers ==> t !in Site.Write(site, tx, key, value, deleted, now).st.buffers
  {
  }

  lemma WriteKeeps(c: State, tx: TxId, s: ShardId, key: Key, value: Text, deleted: bool, now: u64)
    requires Inv(c) && CanCall(c, tx, s, now)
    ensures Inv(AfterWrite(c, tx, s, key, value, deleted, now))
  {
    var site := Site.Write(c.sites[s], tx, key, value, deleted, now);
    NotPromised(c, tx, s);
    SI.WriteKeeps(c.sites[s], tx, key, value, deleted, now);
    forall t ensures SiteSame(c.sites[s], site, t)
            && (t != tx && t !in c.sites[s].st.buffers ==> t !in site.st.buffers) {
      WriteQuiet(c.sites[s], tx, key, value, deleted, now, t);
    }
    QuietStep(c, site, tx, s);
  }

  lemma PrepareRecords(site: Site.Site, tx: TxId, iso: Shard.Isolation, now: u64)
    requires Unvoted(site, tx)
    ensures var (site', ballot) := Site.Prepare(site, tx, iso, now);
            && site'.log == site.log
            && (tx in site'.pledges <==> ballot.vote == Shard.VoteCommit)
            && !HasStatus(site', tx, T.Running) && !HasStatus(site', tx, T.Committed)
            && (ballot.vote == Shard.VoteCommit ==>
                  site'.pledges[tx].time == ballot.time && tx in site'.st.status
                  && site'.st.status[tx] == T.TxState(T.Prepared, ballot.time))
  {
  }

  /** A vote is cast once, and the reply says what the shard recorded. */
  lemma PrepareAt(c: State, tx: TxId, s: ShardId, now: u64)
    requires CanPrepare(c, tx, s, now) && Pair(c, tx, s) && Unvoted(c.sites[s], tx)
    ensures Pair(AfterPrepare(c, tx, s, now), tx, s)
  {
    assert VotesTrue(c, tx, s) && RecordsTrue(c, tx, s) && DecisionTrue(c, tx, s);
    PrepareRecords(c.sites[s], tx, c.coords[tx].iso, now);
  }

  lemma PrepareOthers(site: Site.Site, tx: TxId, iso: Shard.Isolation, now: u64, t: TxId)
    requires Site.Inv(site) && !Site.IsPrepared(site, tx) && Hlc.TickFits(site.st.ts, now) && t != tx
    ensures var site' := Site.Prepare(site, tx, iso, now).0;
            SiteSame(site, site', t) && (t !in site.st.buffers ==> t !in site'.st.buffers)
  {
    SI.PrepareKeeps(site, tx, iso, now);
    SameSite(site, Site.Prepare(site, tx, iso, now).0, t);
  }

  lemma PrepareKeeps(c: State, tx: TxId, s: ShardId, now: u64)
    requires Inv(c) && CanPrepare(c, tx, s, now)
    ensures Inv(AfterPrepare(c, tx, s, now))
  {
    NotPromised(c, tx, s);
    SI.PrepareKeeps(c.sites[s], tx, c.coords[tx].iso, now);
    PrepareAt(c, tx, s, now);
    PrepareLocal(c, tx, s, now);
    LocalStep(c, AfterPrepare(c, tx, s, now), tx, s);
  }

  lemma PrepareLocal(c: State, tx: TxId, s: ShardId, now: u64)
    requires NetTrue(c) && CanPrepare(c, tx, s, now) && Site.Inv(c.sites[s]) && !Site.IsPrepared(c.sites[s], tx)
    ensures Local(c, AfterPrepare(c, tx, s, now), tx, s) && NetTrue(AfterPrepare(c, tx, s, now))
  {
    var c' := AfterPrepare(c, tx, s, now);
    forall t | t != tx
      ensures SiteSame(c.sites[s], c'.sites[s], t) && (t !in c.sites[s].st.buffers ==> t !in c'.sites[s].st.buffers)
    {
      PrepareOthers(c.sites[s], tx, c.coords[tx].iso, now, t);
    }
  }

  /** A shard takes a message off the network and moves its transaction. */
  lemma ConsumeStep(c: State, site: Site.Site, m: Msg)
    requires Inv(c) && m in c.net && m.tx in c.coords && m.shard in c.sites
    requires Site.Inv(site)
    requires forall t :: t != m.tx ==> SiteSame(c.sites[m.shard], site, t)
    requires forall t :: t != m.tx && t !in c.sites[m.shard].st.buffers ==> t !in site.st.buffers
    requires Pair(Dropped(AtSite(c, m.shard, site), m), m.tx, m.shard)
    ensures Inv(Dropped(AtSite(c, m.shard, site), m))
  {
    LocalStep(c, Dropped(AtSite(c, m.shard, site), m), m.tx, m.shard);
  }

  lemma AbortAt(c: State, tx: TxId, s: ShardId, now: u64)
    requires CanAbort(c, tx, s, now) && tx in c.coords && Pair(c, tx, s)
    ensures Pair(AfterAbort(c, tx, s, now), tx, s)
  {
    assert DecisionTrue(c, tx, s) && RecordsTrue(c, tx, s) && VotesTrue(c, tx, s);
  }

  lemma AbortKeeps(c: State, tx: TxId, s: ShardId, now: u64)
    requires Inv(c) && CanAbort(c, tx, s, now)
    ensures Inv(AfterAbort(c, tx, s, now))
  {
    var c' := AfterAbort(c, tx, s, now);
    assert DoAbort(tx, s).tx in c.coords;
    assert Pair(c, tx, s);
    SI.AbortKeeps(c.sites[s], tx, now);
    forall t | t != tx
      ensures SiteSame(c.sites[s], c'.sites[s], t) && (t !in c.sites[s].st.buffers ==> t !in c'.sites[s].st.buffers)
    {
      SI.AbortLeavesOthers(c.sites[s], tx, now, t);
      SameSite(c.sites[s], c'.sites[s], t);
    }
    AbortAt(c, tx, s, now);
    ConsumeStep(c, c'.sites[s], DoAbort(tx, s));
  }

  /** A commit message only ever reaches a shard that promised, at a time after its promise. */
  lemma CommitPremises(c: State, tx: TxId, s: ShardId, at: u64)
    requires Inv(c) && DoCommit(tx, s, at) in c.net && s in c.sites
    ensures tx in c.coords && c.coords[tx].phase == Committed(at) && s in c.coords[tx].involved
    ensures Site.IsPrepared(c.sites[s], tx) && tx in c.sites[s].pledges && c.sites[s].pledges[tx].time < at
  {
    assert DoCommit(tx, s, at).tx in c.coords;
    assert Pair(c, tx, s);
    assert DecisionTrue(c, tx, s) && VotesTrue(c, tx, s) && RecordsTrue(c, tx, s);
  }

  lemma CommitOthers(site: Site.Site, tx: TxId, at: u64, now: u64, t: TxId)
    requires L.Agree(site.st.locks) && t != tx
    ensures var site' := Site.Commit(site, tx, at, now).0;
            SiteSame(site, site', t) && (t !in site.st.buffers ==> t !in site'.st.buffers)
  {
    SI.CommitLeavesOthers(site, tx, at, now, t);
  }

  lemma CommitAt(c: State, tx: TxId, s: ShardId, at: u64, now: u64)
    requires CanCommit(c, tx, s, at, now) && tx in c.coords && c.coords[tx].phase == Committed(at)
    requires Pair(c, tx, s) && L.Agree(c.sites[s].st.locks) && Site.Promised(c.sites[s], tx)
    ensures Pair(AfterCommit(c, tx, s, at, now), tx, s)
  {
    assert DecisionTrue(c, tx, s) && VotesTrue(c, tx, s) && RecordsTrue(c, tx, s);
    SI.CommitState(c.sites[s], tx, at, now);
    var log := AfterCommit(c, tx, s, at, now).sites[s].log;
    assert log[|log| - 1] == Site.Applied(tx, at, c.sites[s].pledges[tx]);
  }

  lemma CommitKeeps(c: State, tx: TxId, s: ShardId, at: u64, now: u64)
    requires Inv(c) && CanCommit(c, tx, s, at, now)
    ensures Inv(AfterCommit(c, tx, s, at, now))
  {
    var c' := AfterCommit(c, tx, s, at, now);
    CommitPremises(c, tx, s, at);
    assert Pair(c, tx, s) && Site.Settled(c.sites[s], tx);
    SI.CommitKeeps(c.sites[s], tx, at, now);
    forall t | t != tx
      ensures SiteSame(c.sites[s], c'.sites[s], t) && (t !in c.sites[s].st.buffers ==> t !in c'.sites[s].st.buffers)
    {
      CommitOthers(c.sites[s], tx, at, now, t);
    }
    CommitAt(c, tx, s, at, now);
    ConsumeStep(c, c'.sites[s], DoCommit(tx, s, at));
  }

  // ---------------------------------------------------------------- runs

  lemma NextKeeps(c: State, a: Action)
    requires Inv(c) && Enabled(c, a)
    ensures Inv(Next(c, a))
  {
    match a {
      case Begin(iso, now1, now2) => BeginKeeps(c, iso, now1, now2);
      case Start(tx, s, heard) => StartKeeps(c, tx, s, heard); StartedKeeps(c, tx, s);
      case Read(tx, s, key, now) => ReadKeeps(c, tx, s, key, now);
      case Write(tx, s, key, value, deleted, now) => WriteKeeps(c, tx, s, key, value, deleted, now);
      case AskVotes(tx) => AskKeeps(c, tx);
      case Prepare(tx, s, now) => PrepareKeeps(c, tx, s, now);
      case HearVote(tx, s, vote, time) => HearKeeps(c, tx, s, vote, time);
      case GiveUp(tx) => GiveUpKeeps(c, tx);
      case Decide(tx, now) => DecideKeeps(c, tx, now);
      case Commit(tx, s, at, now) => CommitKeeps(c, tx, s, at, now);
      case Abort(tx, s, now) => AbortKeeps(c, tx, s, now);
      case RouterTick(now) => RouterTickKeeps(c, now);
    }
  }

  lemma {:induction false} RunKeeps(c: State, actions: seq<Action>)
    requires Inv(c) && Legal(c, actions)
    ensures Inv(Run(c, actions))
    decreases |actions|
  {
    if actions != [] {
      NextKeeps(c, actions[0]);
      RunKeeps(Next(c, actions[0]), actions[1..]);
    }
  }

  /** The invariant holds after every run from empty shards. */
  lemma ReachableInv(c: State)
    requires Reachable(c)
    ensures Inv(c)
  {
    var c0, actions :| Initial(c0) && Legal(c0, actions) && Run(c0, actions) == c;
    InitialInv(c0);
    RunKeeps(c0, actions);
  }
}
