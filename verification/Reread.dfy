/** Reading a key twice: a transaction keeps only its last answer, and an earlier one was
    the same if and only if no commit timed at or below its snapshot came in between. */
module Reread {
  import opened Basics
  import S = Store
  import B = Buffer
  import G = Guarantees
  import I = Isolation
  import Shard
  import Site
  import opened Cluster
  import opened ClusterInvariant
  import opened Shown

  // ---------------------------------------------------------------- what runs leave alone

  lemma StepGrows(c: State, a: Action, s: ShardId)
    requires Enabled(c, a) && s in c.sites
    ensures s in Next(c, a).sites && c.sites[s].log <= Next(c, a).sites[s].log
  {
  }

  /** A shard's log only grows. */
  lemma {:induction false} LogGrows(c: State, actions: seq<Action>, s: ShardId)
    requires Legal(c, actions) && s in c.sites
    ensures s in Run(c, actions).sites && c.sites[s].log <= Run(c, actions).sites[s].log
    decreases |actions|
  {
    if actions != [] {
      StepGrows(c, actions[0], s);
      LogGrows(Next(c, actions[0]), actions[1..], s);
    }
  }

  predicate SameSnapshot(c: State, c': State, t: TxId) {
    t in c.coords && t in c'.coords && c'.coords[t].snapshot == c.coords[t].snapshot
  }

  lemma BeginKeepsSnapshot(c: State, iso: Shard.Isolation, now1: u64, now2: u64, t: TxId)
    requires Inv(c) && Enabled(c, Begin(iso, now1, now2)) && t in c.coords
    ensures SameSnapshot(c, AfterBegin(c, iso, now1, now2), t)
  {
    NameIsNew(c, now1);
  }

  lemma CallKeepsSnapshot(c: State, a: Action, t: TxId)
    requires Enabled(c, a) && t in c.coords && (a.Start? || a.AskVotes? || a.HearVote? || a.GiveUp? || a.Decide?)
    ensures SameSnapshot(c, Next(c, a), t)
  {
  }

  lemma StepKeepsSnapshot(c: State, a: Action, t: TxId)
    requires Inv(c) && Enabled(c, a) && t in c.coords
    ensures SameSnapshot(c, Next(c, a), t)
  {
    if a.Begin? {
      BeginKeepsSnapshot(c, a.iso, a.now1, a.now2, t);
    } else if a.Start? || a.AskVotes? || a.HearVote? || a.GiveUp? || a.Decide? {
      CallKeepsSnapshot(c, a, t);
    }
  }

  /** A transaction keeps its snapshot. */
  lemma {:induction false} SnapshotStays(c: State, actions: seq<Action>, t: TxId)
    requires Inv(c) && Legal(c, actions) && t in c.coords
    ensures t in Run(c, actions).coords && Run(c, actions).coords[t].snapshot == c.coords[t].snapshot
    decreases |actions|
  {
    if actions != [] {
      StepKeepsSnapshot(c, actions[0], t);
      NextKeeps(c, actions[0]);
      SnapshotStays(Next(c, actions[0]), actions[1..], t);
    }
  }

  // ---------------------------------------------------------------- answers

  /** What a shard answers to a transaction's read. */
  ghost function Answer(c: State, t: TxId, s: ShardId, k: Key): Result<Shard.ReadReply, Shard.TxError>
    requires t in c.coords && s in c.sites
  {
    Shard.OnRead(c.sites[s].st, t, k, c.coords[t].snapshot, 0).1
  }

  /** The transaction is known to the shard and has not written the key itself. */
  predicate Asks(c: State, t: TxId, s: ShardId, k: Key) {
    t in c.coords && s in c.sites && t in c.sites[s].st.buffers && k !in c.sites[s].st.buffers[t].writes
  }

  function ReplyOf(shown: Option<I.Cell>): Shard.ReadReply {
    match shown case None => Shard.NOT_FOUND case Some(cell) => Shard.ReadReply(cell.value, cell.version, true)
  }

  /** What the snapshot shows, save that the last 64-bit version shows nothing. */
  ghost function ReplyAt(log: seq<Site.Applied>, k: Key, snapshot: u64): Shard.ReadReply {
    if snapshot == MAX_U64 then Shard.NOT_FOUND else ReplyOf(ShownAt(Site.History(log, k), snapshot))
  }

  lemma AnswerIsShown(c: State, t: TxId, s: ShardId, k: Key)
    requires Inv(c) && Asks(c, t, s, k)
    ensures Answer(c, t, s, k) == Ok(ReplyAt(c.sites[s].log, k, c.coords[t].snapshot))
  {
    G.HistoryIsAscending(c, s, k);
  }

  function RecordOf(k: Key, reply: Shard.ReadReply): B.ReadRecord {
    B.ReadRecord(k, reply.version, reply.found)
  }

  /** After more commits a snapshot shows the same if and only if those of them timed at or
      below it leave it current. */
  lemma ShownAgainIff(log: seq<Site.Applied>, more: seq<Site.Applied>, k: Key, snapshot: u64)
    requires S.Ascending(Site.History(log + more, k))
    ensures var shown, since := ShownAt(Site.History(log, k), snapshot), Timed(more, snapshot + 1);
            ShownAt(Site.History(log + more, k), snapshot) == shown <==>
            I.StaysCurrent(since, 0, |since|, RecordOf(k, ReplyOf(shown)))
  {
    var r := RecordOf(k, ReplyOf(ShownAt(Site.History(log, k), snapshot)));
    ShownIsTimed(log, k, snapshot);
    ShownIsTimed(log + more, k, snapshot);
    TimedAppend(log, more, snapshot + 1);
    TimedHistory(log + more, k, snapshot + 1);
    LeftCurrentIff(Timed(log, snapshot + 1), Timed(more, snapshot + 1), r);
  }

  /** Two answers of a shard to one transaction, at any two moments of a run, are the same
      if and only if the commits applied in between that are timed at or below its snapshot
      leave the first one current. */
  lemma SameAnswerIff(c: State, actions: seq<Action>, t: TxId, s: ShardId, k: Key)
    requires Reachable(c) && Legal(c, actions) && Asks(c, t, s, k) && Asks(Run(c, actions), t, s, k)
    ensures c.sites[s].log <= Run(c, actions).sites[s].log
    ensures SameReadIff(Answer(c, t, s, k), Answer(Run(c, actions), t, s, k),
                        c.sites[s].log, Run(c, actions).sites[s].log, k, c.coords[t].snapshot)
  {
    ReachableInv(c);
    RunKeeps(c, actions);
    LogGrows(c, actions, s);
    SnapshotStays(c, actions, t);
    AnswerIsShown(c, t, s, k);
    AnswerIsShown(Run(c, actions), t, s, k);
    G.HistoryIsAscending(Run(c, actions), s, k);
    AnswersAgreeIff(Answer(c, t, s, k), Answer(Run(c, actions), t, s, k),
                    c.sites[s].log, Run(c, actions).sites[s].log, k, c.coords[t].snapshot);
  }

  lemma AnswersAgreeIff(a: Result<Shard.ReadReply, Shard.TxError>, a': Result<Shard.ReadReply, Shard.TxError>,
                        log: seq<Site.Applied>, log': seq<Site.Applied>, k: Key, snapshot: u64)
    requires log <= log' && S.Ascending(Site.History(log', k))
    requires a == Ok(ReplyAt(log, k, snapshot)) && a' == Ok(ReplyAt(log', k, snapshot))
    ensures SameReadIff(a, a', log, log', k, snapshot)
  {
    RepliesAgreeIff(log, log', k, snapshot);
  }

  /** Two answers are the same if and only if what was applied in between, timed at or below
      the snapshot, leaves the first one current. */
  ghost predicate SameReadIff(a: Result<Shard.ReadReply, Shard.TxError>, a': Result<Shard.ReadReply, Shard.TxError>,
                              log: seq<Site.Applied>, log': seq<Site.Applied>, k: Key, snapshot: u64)
    requires log <= log'
  {
    && a.Ok?
    && var since := Timed(log'[|log|..], snapshot + 1);
       a' == a <==> snapshot == MAX_U64 || I.StaysCurrent(since, 0, |since|, RecordOf(k, a.value))
  }

  lemma RepliesAgreeIff(log: seq<Site.Applied>, log': seq<Site.Applied>, k: Key, snapshot: u64)
    requires log <= log' && S.Ascending(Site.History(log', k))
    ensures var reply, since := ReplyAt(log, k, snapshot), Timed(log'[|log|..], snapshot + 1);
            ReplyAt(log', k, snapshot) == reply <==>
            snapshot == MAX_U64 || I.StaysCurrent(since, 0, |since|, RecordOf(k, reply))
  {
    assert log' == log + log'[|log|..];
    ShownAgainIff(log, log'[|log|..], k, snapshot);
    RepliesDiffer(ShownAt(Site.History(log, k), snapshot), ShownAt(Site.History(log', k), snapshot));
  }

  lemma RepliesDiffer(a: Option<I.Cell>, b: Option<I.Cell>)
    ensures ReplyOf(a) == ReplyOf(b) <==> a == b
  {
  }
}
