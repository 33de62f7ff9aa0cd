/** Every answer a transaction was given, recorded or not, against the serial run in
    commit-time order. */
module Answers {
  import opened Basics
  import S = Store
  import I = Isolation
  import R = Router
  import Runs
  import Shard
  import Site
  import opened Cluster
  import opened ClusterInvariant
  import opened Reread
  import opened Shown
  import opened SystemOrder

  // ---------------------------------------------------------------- a snapshot lies below its commit

  ghost predicate SnapshotsBelow(c: State) {
    forall tx <- c.coords :: c.coords[tx].phase.Committed? ==> c.coords[tx].snapshot < c.coords[tx].phase.at
  }

  lemma DecideIsAbove(c: State, tx: TxId, now: u64)
    requires Inv(c) && CanDecide(c, tx, now) && SnapshotsBelow(c)
    ensures SnapshotsBelow(AfterDecide(c, tx, now))
  {
    assert CoordTrue(c, tx);
    R.CommitTimeAbove(c.clock, c.coords[tx].results, now);
  }

  lemma OthersStayBelow(c: State, a: Action)
    requires Enabled(c, a) && SnapshotsBelow(c) && !a.Decide?
    ensures SnapshotsBelow(Next(c, a))
  {
  }

  lemma {:induction false} BelowThroughout(c: State, actions: seq<Action>)
    requires Inv(c) && SnapshotsBelow(c) && Legal(c, actions)
    ensures SnapshotsBelow(Run(c, actions))
    decreases |actions|
  {
    if actions != [] {
      var a := actions[0];
      if a.Decide? {
        DecideIsAbove(c, a.tx, a.now);
      } else {
        OthersStayBelow(c, a);
      }
      NextKeeps(c, a);
      BelowThroughout(Next(c, a), actions[1..]);
    }
  }

  /** A transaction commits at a time above its snapshot. */
  lemma CommitsAboveSnapshot(c: State, tx: TxId)
    requires Reachable(c) && IsCommitted(c, tx)
    ensures c.coords[tx].snapshot < TimeOf(c, tx)
  {
    var c0, actions :| Initial(c0) && Legal(c0, actions) && Run(c0, actions) == c;
    InitialInv(c0);
    BelowThroughout(c0, actions);
  }

  // ---------------------------------------------------------------- what an answer missed

  /** The commits timed at or above a bound, in their order. */
  function Beyond(log: seq<Site.Applied>, bound: int): seq<Site.Applied> {
    if log == [] then []
    else
      var e := log[|log| - 1];
      Beyond(log[..|log| - 1], bound) + if e.at < bound then [] else [e]
  }

  lemma {:induction false} BeyondHistory(log: seq<Site.Applied>, k: Key, bound: int)
    ensures forall v <- Site.History(Beyond(log, bound), k) :: v in Site.History(log, k) && bound <= v.version
  {
    if log != [] {
      var init, e := log[..|log| - 1], log[|log| - 1];
      BeyondHistory(init, k, bound);
      OneHistory(e, k);
      if e.at >= bound {
        HistoryAppend(Beyond(init, bound), [e], k);
      } else {
        assert Beyond(log, bound) == Beyond(init, bound);
      }
    }
  }

  /** Of one key, what is timed below a bound comes before what is not. */
  lemma {:induction false} LowThenHigh(log: seq<Site.Applied>, k: Key, bound: int)
    requires S.Ascending(Site.History(log, k))
    ensures Site.History(log, k) == Site.History(Timed(log, bound), k) + Site.History(Beyond(log, bound), k)
  {
    if log != [] {
      var init, e := log[..|log| - 1], log[|log| - 1];
      var vs, low, high := Site.History(init, k), Timed(init, bound), Beyond(init, bound);
      LastHistory(log, k);
      LowThenHigh(init, k, bound);
      if e.at < bound {
        assert Beyond(log, bound) == high && Timed(log, bound) == low + [e];
        BeyondHistory(init, k, bound);
        OneMoreLow(vs, low, high, e, k, bound);
      } else {
        assert Timed(log, bound) == low && Beyond(log, bound) == high + [e];
        HistoryAppend(high, [e], k);
        Regroup(Site.History(low, k), Site.History(high, k), Site.History([e], k));
      }
    }
  }

  lemma LastHistory(log: seq<Site.Applied>, k: Key)
    requires log != [] && S.Ascending(Site.History(log, k))
    ensures Site.History(log, k) == Site.History(log[..|log| - 1], k) + Site.History([log[|log| - 1]], k)
    ensures S.Ascending(Site.History(log[..|log| - 1], k))
  {
    var vs := Site.History(log[..|log| - 1], k);
    OneHistory(log[|log| - 1], k);
    assert Site.History(log, k)[..|vs|] == vs;
  }

  lemma Regroup(a: S.Versions, b: S.Versions, c: S.Versions)
    ensures a + b + c == a + (b + c)
  {
  }

  lemma OneMoreLow(vs: S.Versions, low: seq<Site.Applied>, high: seq<Site.Applied>, e: Site.Applied, k: Key, bound: int)
    requires S.Ascending(vs + Site.History([e], k)) && e.at < bound
    requires vs == Site.History(low, k) + Site.History(high, k)
    requires forall v <- Site.History(high, k) :: v in vs && bound <= v.version
    ensures vs + Site.History([e], k) == Site.History(low + [e], k) + Site.History(high, k)
  {
    OneHistory(e, k);
    HistoryAppend(low, [e], k);
    if Site.Writes(e, k) {
      NothingHigh(vs, Site.History(high, k), Shard.Entry(e.pledge.buf.writes[k], e.at, e.tx), bound);
    } else {
      assert vs + [] == vs && Site.History(low, k) + [] == Site.History(low, k);
    }
  }

  lemma NothingHigh(vs: S.Versions, high: S.Versions, x: S.VersionedValue, bound: int)
    requires S.Ascending(vs + [x]) && x.version < bound && forall v <- high :: v in vs && bound <= v.version
    ensures high == []
  {
    if high != [] {
      var h := high[0];
      assert h in high;
      BelowLast(vs, x, h);
      assert false;
    }
  }

  lemma BelowLast(vs: S.Versions, x: S.VersionedValue, h: S.VersionedValue)
    requires S.Ascending(vs + [x]) && h in vs
    ensures h.version < x.version
  {
    var i :| 0 <= i < |vs| && vs[i] == h;
    assert (vs + [x])[i].version < (vs + [x])[|vs|].version;
  }

  /** The versions below a bound. */
  function Upto(vs: S.Versions, bound: int): S.Versions {
    if vs == [] then []
    else
      var v := vs[|vs| - 1];
      Upto(vs[..|vs| - 1], bound) + if v.version < bound then [v] else []
  }

  lemma {:induction false} TimedIsUpto(log: seq<Site.Applied>, k: Key, bound: int)
    ensures Site.History(Timed(log, bound), k) == Upto(Site.History(log, k), bound)
  {
    if log != [] {
      var init, e := log[..|log| - 1], log[|log| - 1];
      var vs := Site.History(init, k);
      TimedIsUpto(init, k, bound);
      OneHistory(e, k);
      assert Site.History(log, k) == vs + Site.History([e], k);
      if Site.Writes(e, k) {
        UptoOnTop(vs, Shard.Entry(e.pledge.buf.writes[k], e.at, e.tx), bound);
      } else {
        assert vs + [] == vs;
      }
      if e.at < bound {
        HistoryAppend(Timed(init, bound), [e], k);
      } else {
        assert Timed(log, bound) == Timed(init, bound);
      }
    }
  }

  lemma UptoOnTop(vs: S.Versions, x: S.VersionedValue, bound: int)
    ensures Upto(vs + [x], bound) == Upto(vs, bound) + if x.version < bound then [x] else []
  {
    assert (vs + [x])[..|vs + [x]| - 1] == vs;
  }

  /** What an answer given at a snapshot, when the shard had applied the first log, has not seen of
      the commits timed below a bound: those above the snapshot, and those applied later. */
  function Unseen(seen: seq<Site.Applied>, whole: seq<Site.Applied>, snapshot: u64, bound: int): seq<Site.Applied>
    requires seen <= whole
  {
    Timed(Beyond(seen, snapshot + 1) + whole[|seen|..], bound)
  }

  lemma SeenAndUnseen(seen: seq<Site.Applied>, whole: seq<Site.Applied>, k: Key, snapshot: u64, bound: int)
    requires seen <= whole && snapshot < bound && S.Ascending(Site.History(whole, k))
    ensures S.Ascending(Site.History(Timed(whole, bound), k))
    ensures Site.History(Timed(whole, bound), k) ==
            Site.History(Timed(seen, snapshot + 1) + Unseen(seen, whole, snapshot, bound), k)
  {
    var rest, low, high := whole[|seen|..], Timed(seen, snapshot + 1), Beyond(seen, snapshot + 1);
    assert whole == seen + rest;
    HistoryAppend(seen, rest, k);
    assert Site.History(whole, k)[..|Site.History(seen, k)|] == Site.History(seen, k);
    LowThenHigh(seen, k, snapshot + 1);
    HistoryAppend(high, rest, k);
    HistoryAppend(low, high + rest, k);
    assert Site.History(low + (high + rest), k) == Site.History(whole, k);
    TimedIsUpto(whole, k, bound);
    TimedIsUpto(low + (high + rest), k, bound);
    TimedAppend(low, high + rest, bound);
    TimedMembers(seen, snapshot + 1);
    TimedAll(low, bound);
    TimedHistory(whole, k, bound);
  }

  // ---------------------------------------------------------------- answers and the serial run

  /** An answer given to a transaction at any moment is what the serial run shows just before
      its commit if and only if what the answer had not seen, of the commits timed below the
      transaction's own, leaves it current. */
  lemma AnswerServedIff(c: State, actions: seq<Action>, order: seq<TxId>, n: nat, s: ShardId, k: Key)
    requires Reachable(c) && Legal(c, actions) && IsOrder(Run(c, actions), order) && n < |order|
    requires Asks(c, order[n], s, k)
    ensures s in Run(c, actions).sites && c.sites[s].log <= Whole(Run(c, actions), order, s)
    ensures AnswerServed(c, Run(c, actions), order, n, s, k)
  {
    var c' := Run(c, actions);
    ReachableInv(c);
    RunKeeps(c, actions);
    RunReachable(c, actions);
    LogGrows(c, actions, s);
    SnapshotStays(c, actions, order[n]);
    AnswerIsShown(c, order[n], s, k);
    CommitsAboveSnapshot(c', order[n]);
    WholeAscending(c', order, s, k);
    ReplyServedIff(c.sites[s].log, Whole(c', order, s), k, c.coords[order[n]].snapshot, TimeOf(c', order[n]));
    BoardServedIff(c', order, n, s, RecordOf(k, Answer(c, order[n], s, k).value));
  }

  ghost predicate AnswerServed(c: State, c': State, order: seq<TxId>, n: nat, s: ShardId, k: Key)
    requires IsOrder(c', order) && n < |order| && s in c.sites && s in c'.sites && order[n] in c.coords
    requires c.sites[s].log <= Whole(c', order, s)
  {
    var tx, answer := order[n], Answer(c, order[n], s, k);
    && answer.Ok?
    && var unseen := Unseen(c.sites[s].log, Whole(c', order, s), c.coords[tx].snapshot, TimeOf(c', tx));
       I.Served(BoardAfter(c', order[..n])[s], RecordOf(k, answer.value)) <==>
       I.StaysCurrent(unseen, 0, |unseen|, RecordOf(k, answer.value))
  }

  lemma ReplyServedIff(log: seq<Site.Applied>, whole: seq<Site.Applied>, k: Key, snapshot: u64, bound: u64)
    requires log <= whole && snapshot < bound && S.Ascending(Site.History(whole, k))
    ensures var r, unseen := RecordOf(k, ReplyAt(log, k, snapshot)), Unseen(log, whole, snapshot, bound);
            Agrees(I.Visible(Site.History(Timed(whole, bound), k)), r) <==> I.StaysCurrent(unseen, 0, |unseen|, r)
  {
    SeenAndUnseen(log, whole, k, snapshot, bound);
    ShownIsTimed(log, k, snapshot);
    LeftCurrentIff(Timed(log, snapshot + 1), Unseen(log, whole, snapshot, bound),
                   RecordOf(k, ReplyAt(log, k, snapshot)));
  }

  lemma RunReachable(c: State, actions: seq<Action>)
    requires Reachable(c) && Legal(c, actions)
    ensures Reachable(Run(c, actions))
  {
    var c0, before :| Initial(c0) && Legal(c0, before) && Run(c0, before) == c;
    Runs.RunThen(c0, before, actions);
  }
}
