/** One order for all shards: committed transactions by commit time, each a single update
    of the whole system. A snapshot read shows a prefix of that order; the order is serial
    for the SER transactions exactly when the commits that reach a shard after their vote
    and are timed below theirs leave each recorded read current. */
module SystemOrder {
  import opened Basics
  import S = Store
  import B = Buffer
  import SI = SiteInvariant
  import I = Isolation
  import G = Guarantees
  import Shard
  import Site
  import opened Cluster
  import opened ClusterInvariant
  import opened Shown

  predicate IsCommitted(c: State, tx: TxId) {
    tx in c.coords && c.coords[tx].phase.Committed?
  }

  function TimeOf(c: State, tx: TxId): u64
    requires IsCommitted(c, tx)
  {
    c.coords[tx].phase.at
  }

  /** Committed transactions by increasing commit time, all below a bound. */
  ghost predicate InTime(c: State, order: seq<TxId>, bound: int) {
    && (forall i :: 0 <= i < |order| ==> IsCommitted(c, order[i]) && TimeOf(c, order[i]) < bound)
    && (forall i, j :: 0 <= i < j < |order| ==> TimeOf(c, order[i]) < TimeOf(c, order[j]))
  }

  lemma InTimeNext(c: State, order: seq<TxId>, tx: TxId, bound: int)
    requires IsCommitted(c, tx) && InTime(c, order, TimeOf(c, tx)) && TimeOf(c, tx) < bound
    ensures InTime(c, order + [tx], bound)
  {
  }

  /** All committed transactions, by increasing commit time. */
  ghost predicate IsOrder(c: State, order: seq<TxId>) {
    InTime(c, order, TWO_64) && forall tx :: IsCommitted(c, tx) ==> tx in order
  }

  // ---------------------------------------------------------------- the order exists

  predicate Stuck(c: State, e: Event) {
    e.Decided? && e.tx in c.coords && c.coords[e.tx].phase == Committed(e.at)
  }

  function DecidedOrder(c: State, events: seq<Event>): seq<TxId> {
    if events == [] then []
    else
      var e := events[|events| - 1];
      DecidedOrder(c, events[..|events| - 1]) + if Stuck(c, e) then [e.tx] else []
  }

  lemma {:induction false} DecidedOrderLaw(c: State, events: seq<Event>, bound: int)
    requires forall i, j :: 0 <= i < j < |events| ==> events[i].at < events[j].at
    requires forall i :: 0 <= i < |events| ==> events[i].at < bound
    ensures InTime(c, DecidedOrder(c, events), bound)
    ensures forall e <- events :: Stuck(c, e) ==> e.tx in DecidedOrder(c, events)
  {
    if events != [] {
      var init, e := events[..|events| - 1], events[|events| - 1];
      DecidedOrderLaw(c, init, e.at);
      assert events == init + [e];
      var before, order := DecidedOrder(c, init), DecidedOrder(c, events);
      if Stuck(c, e) {
        InTimeNext(c, before, e.tx, bound);
        assert order[|before|] == e.tx;
      } else {
        assert order == before;
      }
      forall x | x in events && Stuck(c, x) ensures x.tx in order {
        assert x in init || x == e;
      }
    }
  }

  /** The router's own history gives the order. */
  lemma OrderExists(c: State) returns (order: seq<TxId>)
    requires Inv(c)
    ensures IsOrder(c, order)
  {
    order := DecidedOrder(c, c.timeline);
    DecidedOrderLaw(c, c.timeline, TWO_64);
    forall tx | IsCommitted(c, tx) ensures tx in order {
      assert CoordTrue(c, tx);
      assert Stuck(c, Decided(tx, TimeOf(c, tx)));
    }
  }

  // ---------------------------------------------------------------- the system machine

  /** What a transaction does to one shard: nothing, or the commit it voted for. */
  function Effect(c: State, tx: TxId, s: ShardId): seq<Site.Applied> {
    if IsCommitted(c, tx) && s in c.coords[tx].involved && s in c.sites && tx in c.sites[s].pledges
    then [Site.Applied(tx, TimeOf(c, tx), c.sites[s].pledges[tx])]
    else []
  }

  type Board = map<ShardId, map<Key, I.Cell>>

  /** One transaction as one update of all shards at once. */
  function Move(c: State, m: Board, tx: TxId): Board {
    map s | s in m :: if Effect(c, tx, s) == [] then m[s] else I.Step(m[s], Effect(c, tx, s)[0])
  }

  ghost function BoardAfter(c: State, order: seq<TxId>): (m: Board)
    ensures m.Keys == c.sites.Keys
  {
    if order == [] then map s | s in c.sites :: map[]
    else Move(c, BoardAfter(c, order[..|order| - 1]), order[|order| - 1])
  }

  /** The part of an order one shard takes part in. */
  function Part(c: State, order: seq<TxId>, s: ShardId): seq<Site.Applied> {
    if order == [] then []
    else Part(c, order[..|order| - 1], s) + Effect(c, order[|order| - 1], s)
  }

  lemma SerialNext(log: seq<Site.Applied>, e: Site.Applied)
    ensures I.Serial(log + [e]) == I.Step(I.Serial(log), e)
  {
    assert (log + [e])[..|log|] == log;
  }

  lemma {:induction false} BoardIsSerial(c: State, order: seq<TxId>, s: ShardId)
    requires s in c.sites
    ensures BoardAfter(c, order)[s] == I.Serial(Part(c, order, s))
  {
    if order != [] {
      var init, tx := order[..|order| - 1], order[|order| - 1];
      BoardIsSerial(c, init, s);
      var part := Part(c, init, s);
      if Effect(c, tx, s) != [] {
        SerialNext(part, Effect(c, tx, s)[0]);
      } else {
        assert part + [] == part;
      }
    }
  }

  /** Times increase along a list of commits. */
  ghost predicate Rising(log: seq<Site.Applied>) {
    forall i, j :: 0 <= i < j < |log| ==> log[i].at < log[j].at
  }

  lemma {:induction false} PartLaw(c: State, order: seq<TxId>, s: ShardId, bound: int)
    requires InTime(c, order, bound)
    ensures var part := Part(c, order, s);
            && Rising(part) && (forall i :: 0 <= i < |part| ==> part[i].at < bound)
            && (forall e :: e in part <==> exists i :: 0 <= i < |order| && Effect(c, order[i], s) == [e])
  {
    if order != [] {
      var init, tx := order[..|order| - 1], order[|order| - 1];
      PartLaw(c, init, s, TimeOf(c, tx));
      var before, part := Part(c, init, s), Part(c, order, s);
      forall e ensures e in part <==> exists i :: 0 <= i < |order| && Effect(c, order[i], s) == [e] {
        assert e in part <==> e in before || e in Effect(c, tx, s);
        if i :| 0 <= i < |init| && Effect(c, init[i], s) == [e] {
          assert Effect(c, order[i], s) == [e];
        }
        if i :| 0 <= i < |order| && Effect(c, order[i], s) == [e] {
          assert i < |init| ==> init[i] == order[i];
        }
      }
    }
  }

  lemma AppliedEffect(c: State, s: ShardId, i: nat)
    requires Inv(c) && s in c.sites && i < |c.sites[s].log|
    ensures Effect(c, c.sites[s].log[i].tx, s) == [c.sites[s].log[i]]
  {
    var tx := c.sites[s].log[i].tx;
    assert tx !in c.coords ==> Unknown(c.sites[s], tx);
    assert Pair(c, tx, s) && RecordsTrue(c, tx, s);
  }

  lemma PlacedEffect(c: State, order: seq<TxId>, s: ShardId, e: Site.Applied)
    requires IsOrder(c, order) && Effect(c, e.tx, s) == [e]
    ensures exists n :: 0 <= n < |order| && Effect(c, order[n], s) == [e]
  {
    var n :| 0 <= n < |order| && order[n] == e.tx;
  }

  lemma AppliedIsInPart(c: State, order: seq<TxId>, s: ShardId, e: Site.Applied)
    requires Inv(c) && IsOrder(c, order) && s in c.sites && e in c.sites[s].log
    ensures e in Part(c, order, s)
  {
    PartLaw(c, order, s, TWO_64);
    var i :| 0 <= i < |c.sites[s].log| && c.sites[s].log[i] == e;
    AppliedEffect(c, s, i);
    PlacedEffect(c, order, s, e);
  }

  // ---------------------------------------------------------------- equal lists

  lemma {:induction false} RisingHistory(log: seq<Site.Applied>, k: Key)
    requires Rising(log)
    ensures S.Ascending(Site.History(log, k))
  {
    if log != [] {
      var init := log[..|log| - 1];
      RisingHistory(init, k);
      SI.HistoryBelow(init, k, log[|log| - 1].at);
    }
  }

  lemma SameElements(vs: S.Versions, ws: S.Versions)
    requires S.Ascending(vs) && S.Ascending(ws) && forall e :: e in vs <==> e in ws
    ensures vs == ws
  {
    assert forall j :: 0 <= j < |ws| ==> ws[j] in vs;
    forall v: int ensures S.Lookup(vs, v) == S.Lookup(ws, v) {
      if i :| 0 <= i < |vs| && vs[i].version == v {
        S.LookupAt(vs, i);
        assert vs[i] in ws;
        var j :| 0 <= j < |ws| && ws[j] == vs[i];
        S.LookupAt(ws, j);
      }
    }
    S.ContentDeterminesList(vs, ws);
  }

  lemma HistoryMembers(log: seq<Site.Applied>, log': seq<Site.Applied>, k: Key, e: S.VersionedValue)
    requires (forall x :: x in log ==> x in log') && e in Site.History(log, k)
    ensures e in Site.History(log', k)
  {
    var n :| 0 <= n < |Site.History(log, k)| && Site.History(log, k)[n] == e;
    var i := G.HistoryFrom(log, k, n);
    assert log[i] in log';
    var j :| 0 <= j < |log'| && log'[j] == log[i];
    var m := G.HistoryHas(log', j, k);
  }

  /** In whichever order a shard applied them, its version lists are those of commit-time order. */
  lemma SameHistory(log: seq<Site.Applied>, part: seq<Site.Applied>, k: Key)
    requires Rising(part) && S.Ascending(Site.History(log, k)) && forall e :: e in part <==> e in log
    ensures Site.History(part, k) == Site.History(log, k)
  {
    RisingHistory(part, k);
    forall e ensures e in Site.History(part, k) <==> e in Site.History(log, k) {
      if e in Site.History(part, k) {
        HistoryMembers(part, log, k, e);
      }
      if e in Site.History(log, k) {
        HistoryMembers(log, part, k, e);
      }
    }
    SameElements(Site.History(part, k), Site.History(log, k));
  }

  // ---------------------------------------------------------------- what a shard has still to apply

  /** Decided commits of an order that the shard has not applied yet. */
  function Coming(c: State, order: seq<TxId>, s: ShardId): seq<Site.Applied>
    requires s in c.sites
  {
    if order == [] then []
    else
      var effect := Effect(c, order[|order| - 1], s);
      Coming(c, order[..|order| - 1], s) + if effect != [] && effect[0] !in c.sites[s].log then effect else []
  }

  /** The shard's log as it will be once they are applied in the order of their times. */
  function Whole(c: State, order: seq<TxId>, s: ShardId): seq<Site.Applied>
    requires s in c.sites
  {
    c.sites[s].log + Coming(c, order, s)
  }

  lemma {:induction false} ComingLaw(c: State, order: seq<TxId>, s: ShardId, bound: int)
    requires InTime(c, order, bound) && s in c.sites
    ensures Rising(Coming(c, order, s))
    ensures forall i :: 0 <= i < |Coming(c, order, s)| ==> Coming(c, order, s)[i].at < bound
    ensures forall e :: e in Coming(c, order, s) <==> e in Part(c, order, s) && e !in c.sites[s].log
  {
    if order != [] {
      var init, tx := order[..|order| - 1], order[|order| - 1];
      ComingLaw(c, init, s, TimeOf(c, tx));
      var before, part := Coming(c, init, s), Part(c, init, s);
      forall e ensures e in Coming(c, order, s) <==> e in Part(c, order, s) && e !in c.sites[s].log {
        assert e in Part(c, order, s) <==> e in part || e in Effect(c, tx, s);
        assert e in Coming(c, order, s) <==> e in before || (e in Effect(c, tx, s) && e !in c.sites[s].log);
      }
    }
  }

  /** A commit on its way to a shard: promised there, and above everything its keys have. */
  lemma ComingStands(c: State, order: seq<TxId>, s: ShardId, e: Site.Applied)
    requires Inv(c) && InTime(c, order, TWO_64) && s in c.sites && e in Coming(c, order, s)
    ensures Site.Stands(c.sites[s].log, e.pledge) && e.pledge.time < e.at
    ensures DoCommit(e.tx, s, e.at) in c.net && Effect(c, e.tx, s) == [e]
  {
    ComingLaw(c, order, s, TWO_64);
    PartLaw(c, order, s, TWO_64);
    var i :| 0 <= i < |order| && Effect(c, order[i], s) == [e];
    assert Pair(c, e.tx, s) && DecisionTrue(c, e.tx, s) && RecordsTrue(c, e.tx, s) && VotesTrue(c, e.tx, s);
    assert Site.Settled(c.sites[s], e.tx);
  }

  /** A commit the shard has applied. */
  lemma AppliedStands(c: State, s: ShardId, j: nat)
    requires Inv(c) && s in c.sites && j < |c.sites[s].log|
    ensures var log := c.sites[s].log;
            Site.Stands(log[..j], log[j].pledge) && log[j].pledge.time <= log[j].at
  {
  }

  /** The whole log is the shard's part of the order, in another order. */
  lemma WholeMembers(c: State, order: seq<TxId>, s: ShardId)
    requires Inv(c) && IsOrder(c, order) && s in c.sites
    ensures forall e :: e in Whole(c, order, s) <==> e in Part(c, order, s)
  {
    ComingLaw(c, order, s, TWO_64);
    forall e ensures e in Whole(c, order, s) <==> e in Part(c, order, s) {
      if e in c.sites[s].log {
        AppliedIsInPart(c, order, s, e);
      }
    }
  }

  /** Versions of each key increase along it. */
  lemma WholeAscending(c: State, order: seq<TxId>, s: ShardId, k: Key)
    requires Inv(c) && IsOrder(c, order) && s in c.sites
    ensures S.Ascending(Site.History(Whole(c, order, s), k))
  {
    var log, coming := c.sites[s].log, Coming(c, order, s);
    ComingLaw(c, order, s, TWO_64);
    RisingHistory(coming, k);
    G.HistoryIsAscending(c, s, k);
    HistoryAppend(log, coming, k);
    var vs, ws := Site.History(log, k), Site.History(coming, k);
    forall i, j | 0 <= i < |vs| && 0 <= j < |ws| ensures vs[i].version < ws[j].version {
      var m := G.HistoryFrom(log, k, i);
      var n := G.HistoryFrom(coming, k, j);
      ComingStands(c, order, s, coming[n]);
    }
  }

  /** No commit timed below the bound is on its way to the shard. */
  ghost predicate Arrived(c: State, s: ShardId, bound: int) {
    forall m <- c.net :: m.DoCommit? && m.shard == s ==> bound <= m.at
  }

  /** Then what is timed below the bound has been applied; and if nothing is on its way,
      the whole log is the log. */
  lemma ArrivedIsApplied(c: State, order: seq<TxId>, s: ShardId, bound: int)
    requires Inv(c) && IsOrder(c, order) && s in c.sites && Arrived(c, s, bound)
    ensures Timed(Whole(c, order, s), bound) == Timed(c.sites[s].log, bound)
    ensures bound == TWO_64 ==> Whole(c, order, s) == c.sites[s].log
  {
    var coming := Coming(c, order, s);
    forall i | 0 <= i < |coming| ensures bound <= coming[i].at {
      ComingStands(c, order, s, coming[i]);
      assert DoCommit(coming[i].tx, s, coming[i].at).DoCommit?;
    }
    TimedAppend(c.sites[s].log, coming, bound);
    TimedNone(coming, bound);
    assert coming == [] || coming[0].at < TWO_64;
  }

  // ---------------------------------------------------------------- snapshots and the order

  /** The bound lies above the first `n` commits of the order and not above the others. */
  ghost predicate CutsAt(c: State, order: seq<TxId>, n: nat, bound: int)
    requires InTime(c, order, TWO_64)
  {
    && n <= |order|
    && (forall i :: 0 <= i < n ==> TimeOf(c, order[i]) < bound)
    && (forall i :: n <= i < |order| ==> bound <= TimeOf(c, order[i]))
  }

  /** The commits of the first `n` transactions are those of the whole log below the bound. */
  lemma CutMembers(c: State, order: seq<TxId>, n: nat, s: ShardId, bound: int)
    requires Inv(c) && IsOrder(c, order) && CutsAt(c, order, n, bound) && s in c.sites
    ensures Rising(Part(c, order[..n], s))
    ensures forall e :: e in Part(c, order[..n], s) <==> e in Timed(Whole(c, order, s), bound)
  {
    PartLaw(c, order[..n], s, TWO_64);
    forall e ensures e in Part(c, order[..n], s) <==> e in Timed(Whole(c, order, s), bound) {
      CutMember(c, order, n, s, bound, e);
      WholeMembers(c, order, s);
      TimedMembers(Whole(c, order, s), bound);
    }
  }

  lemma CutMember(c: State, order: seq<TxId>, n: nat, s: ShardId, bound: int, e: Site.Applied)
    requires InTime(c, order, TWO_64) && CutsAt(c, order, n, bound)
    ensures e in Part(c, order[..n], s) <==> e in Part(c, order, s) && e.at < bound
  {
    PartLaw(c, order, s, TWO_64);
    PartLaw(c, order[..n], s, TWO_64);
    if e in Part(c, order, s) && e.at < bound {
      var i :| 0 <= i < |order| && Effect(c, order[i], s) == [e];
      assert order[..n][i] == order[i];
    }
    if e in Part(c, order[..n], s) {
      var i :| 0 <= i < n && Effect(c, order[..n][i], s) == [e];
      assert order[..n][i] == order[i];
    }
  }

  /** The system machine after the first `n` transactions shows of each shard what the
      whole log timed below the bound shows. */
  lemma BoardIsTimed(c: State, order: seq<TxId>, n: nat, s: ShardId, k: Key, bound: int)
    requires Inv(c) && IsOrder(c, order) && CutsAt(c, order, n, bound) && s in c.sites
    ensures I.Lookup(BoardAfter(c, order[..n])[s], k) ==
            I.Visible(Site.History(Timed(Whole(c, order, s), bound), k))
  {
    BoardIsSerial(c, order[..n], s);
    I.VisibleIsSerial(Part(c, order[..n], s), k);
    CutMembers(c, order, n, s, bound);
    WholeAscending(c, order, s, k);
    TimedHistory(Whole(c, order, s), k, bound);
    SameHistory(Timed(Whole(c, order, s), bound), Part(c, order[..n], s), k);
  }

  /** A snapshot read at a shard that has what was committed up to the snapshot shows the
      system as it is after those transactions, each a single update of all shards. */
  lemma SnapshotIsPrefix(c: State, order: seq<TxId>, n: nat, snapshot: u64, s: ShardId, k: Key)
    requires Reachable(c) && IsOrder(c, order) && CutsAt(c, order, n, snapshot + 1) && s in c.sites
    requires Arrived(c, s, snapshot + 1)
    ensures ShownAt(S.VersionsOf(c.sites[s].st.data, k), snapshot) == I.Lookup(BoardAfter(c, order[..n])[s], k)
  {
    ReachableInv(c);
    BoardIsTimed(c, order, n, s, k, snapshot + 1);
    ArrivedIsApplied(c, order, s, snapshot + 1);
    G.HistoryIsAscending(c, s, k);
    ShownIsTimed(c.sites[s].log, k, snapshot);
  }

  /** Whatever was read, a shard to which no commit is on its way shows the latest values
      of the serial run. */
  lemma EndsSerial(c: State, order: seq<TxId>, s: ShardId, k: Key)
    requires Reachable(c) && IsOrder(c, order) && s in c.sites && Arrived(c, s, TWO_64)
    ensures I.Visible(S.VersionsOf(c.sites[s].st.data, k)) == I.Lookup(BoardAfter(c, order)[s], k)
  {
    ReachableInv(c);
    BoardIsTimed(c, order, |order|, s, k, TWO_64);
    assert order[..|order|] == order;
    ArrivedIsApplied(c, order, s, TWO_64);
    G.HistoryIsAscending(c, s, k);
    TimedAll(c.sites[s].log, TWO_64);
  }

  // ---------------------------------------------------------------- serializability of the system

  /** An SER transaction recorded a read of the key: the last one it made. */
  predicate Recorded(e: Site.Applied, k: Key) {
    e.pledge.iso == Shard.SER && k in e.pledge.buf.readSet
  }

  predicate SerRead(c: State, tx: TxId, s: ShardId, k: Key) {
    Effect(c, tx, s) != [] && Recorded(Effect(c, tx, s)[0], k)
  }

  function ReadOf(c: State, tx: TxId, s: ShardId, k: Key): B.ReadRecord
    requires SerRead(c, tx, s, k)
  {
    Effect(c, tx, s)[0].pledge.buf.readSet[k]
  }

  /** Every recorded read of every SER transaction, at every shard, is what the system
      machine shows just before the transaction. */
  ghost predicate SystemSerial(c: State, order: seq<TxId>) {
    forall n, s, k :: 0 <= n < |order| && SerRead(c, order[n], s, k) ==>
      I.Served(BoardAfter(c, order[..n])[s], ReadOf(c, order[n], s, k))
  }

  /** Among the commits in a shard's log after a reader's vote, those timed below the
      reader's commit leave the read current. */
  ghost predicate StaysInTime(log: seq<Site.Applied>, e: Site.Applied, k: Key)
    requires Recorded(e, k)
  {
    && e.pledge.window <= |log|
    && var since := Timed(log[e.pledge.window..], e.at);
       I.StaysCurrent(since, 0, |since|, e.pledge.buf.readSet[k])
  }

  /** A vote that has become a decision: what the shard had applied before is timed below
      the commit, and the reads recorded there held. */
  ghost predicate VoteHeld(log: seq<Site.Applied>, e: Site.Applied, k: Key)
    requires Recorded(e, k)
  {
    var p := e.pledge;
    && p.window <= |log| && (forall i :: 0 <= i < p.window ==> log[i].at < e.at)
    && Site.ReadHolds(log, p.window, p.buf.readSet[k]) && p.buf.readSet[k].key == k
  }

  lemma StandingVoteHeld(log: seq<Site.Applied>, e: Site.Applied, k: Key)
    requires Site.Stands(log, e.pledge) && e.pledge.time <= e.at && Recorded(e, k)
    ensures VoteHeld(log, e, k)
  {
  }

  lemma VoteHeldLonger(log: seq<Site.Applied>, n: nat, e: Site.Applied, k: Key)
    requires n <= |log| && Recorded(e, k) && VoteHeld(log[..n], e, k)
    ensures VoteHeld(log, e, k)
  {
    var window := e.pledge.window;
    assert log[..n][..window] == log[..window];
    forall i | 0 <= i < window ensures log[i].at < e.at {
      assert log[..n][i] == log[i];
    }
  }

  lemma VotedRead(c: State, order: seq<TxId>, tx: TxId, s: ShardId, k: Key)
    requires Inv(c) && IsOrder(c, order) && SerRead(c, tx, s, k)
    ensures VoteHeld(c.sites[s].log, Effect(c, tx, s)[0], k)
  {
    var e, log := Effect(c, tx, s)[0], c.sites[s].log;
    PartHas(c, order, tx, s);
    WholeMembers(c, order, s);
    if e in log {
      var j :| 0 <= j < |log| && log[j] == e;
      AppliedStands(c, s, j);
      StandingVoteHeld(log[..j], e, k);
      VoteHeldLonger(log, j, e, k);
    } else {
      assert e in Coming(c, order, s);
      ComingStands(c, order, s, e);
      StandingVoteHeld(log, e, k);
    }
  }

  lemma PartHas(c: State, order: seq<TxId>, tx: TxId, s: ShardId)
    requires IsOrder(c, order) && Effect(c, tx, s) != []
    ensures Effect(c, tx, s)[0] in Part(c, order, s)
  {
    PartLaw(c, order, s, TWO_64);
    var i :| 0 <= i < |order| && order[i] == tx;
    assert Effect(c, order[i], s) == [Effect(c, tx, s)[0]];
  }

  /** One recorded read. */
  lemma ServedIff(c: State, order: seq<TxId>, n: nat, s: ShardId, k: Key)
    requires Inv(c) && IsOrder(c, order) && n < |order| && SerRead(c, order[n], s, k)
    ensures I.Served(BoardAfter(c, order[..n])[s], ReadOf(c, order[n], s, k)) <==>
            StaysInTime(Whole(c, order, s), Effect(c, order[n], s)[0], k)
  {
    var e, log, whole := Effect(c, order[n], s)[0], c.sites[s].log, Whole(c, order, s);
    VotedRead(c, order, order[n], s, k);
    WholeAscending(c, order, s, k);
    HeldIff(log, whole, e, k);
    BoardServedIff(c, order, n, s, e.pledge.buf.readSet[k]);
  }

  lemma BoardServedIff(c: State, order: seq<TxId>, n: nat, s: ShardId, r: B.ReadRecord)
    requires Inv(c) && IsOrder(c, order) && n < |order| && s in c.sites
    ensures I.Served(BoardAfter(c, order[..n])[s], r) <==>
            Agrees(I.Visible(Site.History(Timed(Whole(c, order, s), TimeOf(c, order[n])), r.key)), r)
  {
    CutBefore(c, order, n);
    BoardIsTimed(c, order, n, s, r.key, TimeOf(c, order[n]));
    ServedIsAgrees(BoardAfter(c, order[..n])[s], r);
  }

  lemma HeldIff(log: seq<Site.Applied>, whole: seq<Site.Applied>, e: Site.Applied, k: Key)
    requires Recorded(e, k) && VoteHeld(log, e, k)
    requires log <= whole && S.Ascending(Site.History(whole, k))
    ensures Agrees(I.Visible(Site.History(Timed(whole, e.at), k)), e.pledge.buf.readSet[k]) <==>
            StaysInTime(whole, e, k)
  {
    assert log[..e.pledge.window] == whole[..e.pledge.window];
    HeldInTimeIff(whole, e.pledge.window, e.at, e.pledge.buf.readSet[k]);
  }

  /** Commit-time order is one serial order for all shards, over the recorded reads of all
      SER transactions, if and only if at each shard, among the commits it applied or has
      still to apply after a reader's vote, those timed below the reader's commit leave its
      reads current. */
  lemma SystemSerialIff(c: State, order: seq<TxId>)
    requires Reachable(c) && IsOrder(c, order)
    ensures SystemSerial(c, order) <==>
            forall tx, s, k :: SerRead(c, tx, s, k) ==> StaysInTime(Whole(c, order, s), Effect(c, tx, s)[0], k)
  {
    ReachableInv(c);
    forall n, s, k | 0 <= n < |order| && SerRead(c, order[n], s, k)
      ensures I.Served(BoardAfter(c, order[..n])[s], ReadOf(c, order[n], s, k)) <==>
              StaysInTime(Whole(c, order, s), Effect(c, order[n], s)[0], k)
    {
      ServedIff(c, order, n, s, k);
    }
    if SystemSerial(c, order) {
      forall tx, s, k | SerRead(c, tx, s, k)
        ensures StaysInTime(Whole(c, order, s), Effect(c, tx, s)[0], k)
      {
        var n :| 0 <= n < |order| && order[n] == tx;
        assert SerRead(c, order[n], s, k);
      }
    }
  }

  /** Seen from the store: such a read is what a snapshot just below the reader's commit shows. */
  lemma ServedIsSnapshot(c: State, order: seq<TxId>, n: nat, s: ShardId, k: Key)
    requires Reachable(c) && IsOrder(c, order) && n < |order| && SerRead(c, order[n], s, k)
    requires Arrived(c, s, TimeOf(c, order[n]))
    ensures TimeOf(c, order[n]) > 0
    ensures I.Served(BoardAfter(c, order[..n])[s], ReadOf(c, order[n], s, k)) <==>
            Agrees(ShownAt(S.VersionsOf(c.sites[s].st.data, k), TimeOf(c, order[n]) - 1), ReadOf(c, order[n], s, k))
  {
    ReachableInv(c);
    VotedRead(c, order, order[n], s, k);
    CommitTimePositive(c, order[n], s);
    CutBefore(c, order, n);
    SnapshotIsPrefix(c, order, n, TimeOf(c, order[n]) - 1, s, k);
    ServedIsAgrees(BoardAfter(c, order[..n])[s], ReadOf(c, order[n], s, k));
  }

  lemma CutBefore(c: State, order: seq<TxId>, n: nat)
    requires InTime(c, order, TWO_64) && n < |order|
    ensures CutsAt(c, order, n, TimeOf(c, order[n]))
  {
  }

  lemma CommitTimePositive(c: State, tx: TxId, s: ShardId)
    requires Inv(c) && Effect(c, tx, s) != []
    ensures TimeOf(c, tx) > 0
  {
    assert CoordTrue(c, tx) && Pair(c, tx, s) && DecisionTrue(c, tx, s);
  }

  // ---------------------------------------------------------------- shards whose times rise

  /** Where a commit stands in the whole log, it was voted on after an earlier part of it. */
  lemma WholeAt(c: State, order: seq<TxId>, s: ShardId, j: nat)
    requires Inv(c) && IsOrder(c, order) && s in c.sites && j < |Whole(c, order, s)|
    ensures var e := Whole(c, order, s)[j]; Effect(c, e.tx, s) == [e] && e.pledge.window <= j
  {
    if j < |c.sites[s].log| {
      AppliedEffect(c, s, j);
      AppliedStands(c, s, j);
    } else {
      ComingStands(c, order, s, Whole(c, order, s)[j]);
    }
  }

  /** When times rise, what is timed below a commit is what stands before it. */
  lemma RisingTimed(log: seq<Site.Applied>, window: nat, j: nat, r: B.ReadRecord)
    requires Rising(log) && window <= j < |log|
    ensures Timed(log[window..], log[j].at) == log[window..j]
    ensures I.StaysCurrent(log[window..j], 0, j - window, r) <==> I.StaysCurrent(log, window, j, r)
  {
    var front, back := log[window..j], log[j..];
    assert log[window..] == front + back;
    TimedAppend(front, back, log[j].at);
    TimedAll(front, log[j].at);
    TimedNone(back, log[j].at);
    SlideWriters(log, window, j, r.key);
  }

  lemma SlideWriters(log: seq<Site.Applied>, window: nat, j: nat, k: Key)
    requires window <= j <= |log|
    ensures Site.NoWriter(log[window..j], 0, j - window, k) <==> Site.NoWriter(log, window, j, k)
    ensures I.LastDeletes(log[window..j], 0, j - window, k) <==> I.LastDeletes(log, window, j, k)
  {
    var front := log[window..j];
    forall i | window <= i < j
      ensures front[i - window] == log[i]
      ensures Site.NoWriter(front, i + 1 - window, j - window, k) <==> Site.NoWriter(log, i + 1, j, k)
    {
      NoWriterSlides(log, window, i + 1, j, k);
    }
    NoWriterSlides(log, window, window, j, k);
    if I.LastDeletes(log, window, j, k) {
      forall i | 0 <= i < |front| && Site.Writes(front[i], k) && Site.NoWriter(front, i + 1, j - window, k)
        ensures front[i].pledge.buf.writes[k].deleted
      {
        assert front[i] == log[window + i] && Site.NoWriter(log, window + i + 1, j, k);
      }
    }
    if I.LastDeletes(front, 0, j - window, k) {
      forall i | window <= i < j && Site.Writes(log[i], k) && Site.NoWriter(log, i + 1, j, k)
        ensures log[i].pledge.buf.writes[k].deleted
      {
        assert front[i - window] == log[i] && Site.NoWriter(front, i - window + 1, j - window, k);
      }
    }
  }

  lemma NoWriterSlides(log: seq<Site.Applied>, window: nat, from: nat, j: nat, k: Key)
    requires window <= from <= j <= |log|
    ensures Site.NoWriter(log[window..j], from - window, j - window, k) <==> Site.NoWriter(log, from, j, k)
  {
    var front := log[window..j];
    if Site.NoWriter(front, from - window, j - window, k) {
      forall i | from <= i < j ensures !Site.Writes(log[i], k) {
        assert front[i - window] == log[i];
      }
    }
  }

  lemma RisingRead(log: seq<Site.Applied>, j: nat, k: Key)
    requires Rising(log) && j < |log| && Recorded(log[j], k) && log[j].pledge.window <= j
    ensures StaysInTime(log, log[j], k) <==>
            I.StaysCurrent(log, log[j].pledge.window, j, log[j].pledge.buf.readSet[k])
  {
    RisingTimed(log, log[j].pledge.window, j, log[j].pledge.buf.readSet[k]);
  }

  /** When times rise along every shard's log, commits still to come counted at its end,
      the system is serial in commit-time order if and only if each shard is serial in the
      order of its log: its SER reads stay current between vote and commit. */
  lemma SystemSerialIffShards(c: State, order: seq<TxId>)
    requires Reachable(c) && IsOrder(c, order)
    requires forall s <- c.sites :: Rising(Whole(c, order, s))
    ensures SystemSerial(c, order) <==> forall s <- c.sites :: I.ReadsStayCurrent(Whole(c, order, s))
  {
    ReachableInv(c);
    SystemSerialIff(c, order);
    if forall s <- c.sites :: I.ReadsStayCurrent(Whole(c, order, s)) {
      forall tx, s, k | SerRead(c, tx, s, k)
        ensures StaysInTime(Whole(c, order, s), Effect(c, tx, s)[0], k)
      {
        PartHas(c, order, tx, s);
        WholeMembers(c, order, s);
        var j :| 0 <= j < |Whole(c, order, s)| && Whole(c, order, s)[j] == Effect(c, tx, s)[0];
        WholeAt(c, order, s, j);
        RisingRead(Whole(c, order, s), j, k);
      }
    }
    if SystemSerial(c, order) {
      forall s | s in c.sites ensures I.ReadsStayCurrent(Whole(c, order, s)) {
        ShardStaysCurrent(c, order, s);
      }
    }
  }

  lemma ShardStaysCurrent(c: State, order: seq<TxId>, s: ShardId)
    requires Inv(c) && IsOrder(c, order) && s in c.sites && Rising(Whole(c, order, s))
    requires forall tx, k :: SerRead(c, tx, s, k) ==> StaysInTime(Whole(c, order, s), Effect(c, tx, s)[0], k)
    ensures I.ReadsStayCurrent(Whole(c, order, s))
  {
    var whole := Whole(c, order, s);
    forall j, k | 0 <= j < |whole| && whole[j].pledge.iso == Shard.SER && k in whole[j].pledge.buf.readSet
      ensures I.StaysCurrent(whole, whole[j].pledge.window, j, whole[j].pledge.buf.readSet[k])
    {
      WholeAt(c, order, s, j);
      assert SerRead(c, whole[j].tx, s, k);
      RisingRead(whole, j, k);
    }
  }

  lemma DisjointIsRising(c: State, order: seq<TxId>, s: ShardId)
    requires Inv(c) && IsOrder(c, order) && s in c.sites && I.DisjointWindows(Whole(c, order, s))
    ensures Rising(Whole(c, order, s)) && I.ReadsStayCurrent(Whole(c, order, s))
  {
    var whole := Whole(c, order, s);
    forall i, j | 0 <= i < j < |whole| ensures whole[i].at < whole[j].at {
      VotedLater(c, order, s, i, j);
    }
  }

  lemma VotedLater(c: State, order: seq<TxId>, s: ShardId, i: nat, j: nat)
    requires Inv(c) && IsOrder(c, order) && s in c.sites && i < j < |Whole(c, order, s)|
    requires Whole(c, order, s)[j].pledge.window == j
    ensures Whole(c, order, s)[i].at < Whole(c, order, s)[j].at
  {
    var whole, log := Whole(c, order, s), c.sites[s].log;
    if j < |log| {
      AppliedStands(c, s, j);
      assert log[..j][i] == whole[i];
    } else {
      ComingStands(c, order, s, whole[j]);
      assert log[i] == whole[i];
    }
  }

  /** When no commit of a shard falls between the vote and the commit of another, at any
      shard, the run equals the one serial run in commit-time order: every recorded SER
      read at every shard, and every value of a shard that has all its commits. */
  lemma DisjointWindowsAreSystemSerial(c: State, order: seq<TxId>)
    requires Reachable(c) && IsOrder(c, order)
    requires forall s <- c.sites :: I.DisjointWindows(Whole(c, order, s))
    ensures SystemSerial(c, order)
    ensures forall s, k :: s in c.sites && Arrived(c, s, TWO_64) ==>
              I.Visible(S.VersionsOf(c.sites[s].st.data, k)) == I.Lookup(BoardAfter(c, order)[s], k)
  {
    ReachableInv(c);
    forall s | s in c.sites ensures Rising(Whole(c, order, s)) && I.ReadsStayCurrent(Whole(c, order, s)) {
      DisjointIsRising(c, order, s);
    }
    SystemSerialIffShards(c, order);
    forall s, k | s in c.sites && Arrived(c, s, TWO_64)
      ensures I.Visible(S.VersionsOf(c.sites[s].st.data, k)) == I.Lookup(BoardAfter(c, order)[s], k)
    {
      EndsSerial(c, order, s, k);
    }
  }
}
