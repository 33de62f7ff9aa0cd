/** The router object and the router of the cluster are one: every call, as the object
    answers it, is an action or a run of actions of the cluster. */
module RouterSteps {
  import opened Basics
  import Hlc
  import R = Router
  import Runs
  import Shard
  import Site
  import opened Cluster
  import opened ClusterInvariant

  predicate Undecided(phase: Phase) {
    phase.Active? || phase.Preparing?
  }

  /** What the router object remembers when the cluster is in this state. */
  function MemoryOf(c: State): R.Memory {
    R.Memory(map tx | tx in c.coords && Undecided(c.coords[tx].phase) ::
               R.TxContext(c.coords[tx].snapshot, c.coords[tx].iso, c.coords[tx].involved),
             c.clock)
  }

  function ContextOf(k: Coord): R.TxContext {
    R.TxContext(k.snapshot, k.iso, k.involved)
  }

  /** The message of the cluster for one that the router object sent. */
  predicate Carries(m: Msg, tx: TxId, sent: set<R.Sent>) {
    && m.tx == tx
    && (m.DoCommit? ==> R.SentCommit(m.shard, m.at) in sent)
    && (m.DoAbort? ==> R.SentAbort(m.shard) in sent)
  }

  /** The outcome messages that have come on their way are exactly those the router object sent. */
  ghost predicate Told(c: State, c': State, tx: TxId, sent: set<R.Sent>) {
    forall m: Msg :: m.DoCommit? || m.DoAbort? ==> (m in c'.net <==> m in c.net || Carries(m, tx, sent))
  }

  ghost predicate SameOutcomes(c: State, c': State) {
    forall m: Msg :: m.DoCommit? || m.DoAbort? ==> (m in c'.net <==> m in c.net)
  }

  /** Every one of these shards has a commit at this time coming, and nothing else is new. */
  ghost predicate AddsCommits(c: State, c': State, tx: TxId, shards: set<ShardId>, at: u64) {
    forall m: Msg :: m.DoCommit? || m.DoAbort? ==>
      (m in c'.net <==> m in c.net || (m.DoCommit? && m.tx == tx && m.shard in shards && m.at == at))
  }

  /** Every one of these shards has an abort coming, and nothing else is new. */
  ghost predicate AddsAborts(c: State, c': State, tx: TxId, shards: set<ShardId>) {
    forall m: Msg :: m.DoCommit? || m.DoAbort? ==>
      (m in c'.net <==> m in c.net || (m.DoAbort? && m.tx == tx && m.shard in shards))
  }

  lemma CommitsTold(c: State, c1: State, c': State, tx: TxId, shards: set<ShardId>, at: u64, sent: set<R.Sent>)
    requires SameOutcomes(c, c1) && AddsCommits(c1, c', tx, shards, at) && R.EachTold(shards, at, sent)
    ensures Told(c, c', tx, sent)
  {
  }

  lemma AbortsTold(c: State, c1: State, c': State, tx: TxId, shards: set<ShardId>, sent: set<R.Sent>)
    requires SameOutcomes(c, c1) && AddsAborts(c1, c', tx, shards) && R.EachAborted(shards, sent)
    ensures Told(c, c', tx, sent)
  {
  }

  lemma MemoryMoved(c: State, c': State, tx: TxId, k: Coord)
    requires c'.coords == c.coords[tx := k]
    ensures MemoryOf(c') ==
            R.Memory(if Undecided(k.phase) then MemoryOf(c).active[tx := ContextOf(k)]
                     else MemoryOf(c).active - {tx}, c'.clock)
  {
  }

  // ---------------------------------------------------------------- single actions

  /** BeginTransaction is the action Begin; its error for a name in use cannot happen. */
  lemma BeginIsAction(c: State, iso: Shard.Isolation, now1: u64, now2: u64)
    requires Reachable(c) && Enabled(c, Begin(iso, now1, now2))
    ensures R.OnBegin(MemoryOf(c), iso, now1, now2) ==
            (MemoryOf(Next(c, Begin(iso, now1, now2))), Ok(R.TxName(Hlc.TickTs(c.clock, now1))))
  {
    ReachableInv(c);
    NameIsNew(c, now1);
    var tx, c' := R.TxName(Hlc.TickTs(c.clock, now1)), Next(c, Begin(iso, now1, now2));
    MemoryMoved(c, c', tx, c'.coords[tx]);
  }

  /** ensureShardStarted is nothing for an involved shard, and otherwise the action Start. It
      succeeds, and the shard becomes involved, if and only if the shard had no buffer of
      the transaction and its answer arrives. */
  lemma StartIsAction(c: State, tx: TxId, s: ShardId, heard: bool)
    requires tx in c.coords && c.coords[tx].phase.Active? && s in c.sites
    ensures s in c.coords[tx].involved ==> R.OnEnsureStarted(MemoryOf(c), tx, s, heard) == (MemoryOf(c), Ok(()))
    ensures s !in c.coords[tx].involved ==>
              var started := heard && tx !in c.sites[s].st.buffers;
              R.OnEnsureStarted(MemoryOf(c), tx, s, started) ==
              (MemoryOf(Next(c, Start(tx, s, heard))), if started then Ok(()) else Err(R.StartFailed))
  {
    var m, k := MemoryOf(c), c.coords[tx];
    if s in k.involved {
      assert k.involved + {s} == k.involved;
      assert m.active[tx := m.active[tx]] == m.active;
    } else {
      StartMoves(c, tx, s, heard);
    }
  }

  lemma StartMoves(c: State, tx: TxId, s: ShardId, heard: bool)
    requires CanStart(c, tx, s)
    ensures var started, k := heard && tx !in c.sites[s].st.buffers, c.coords[tx];
            MemoryOf(AfterStart(c, tx, s, heard)) ==
            if started then R.Memory(MemoryOf(c).active[tx := ContextOf(k.(involved := k.involved + {s}))], c.clock)
            else MemoryOf(c)
  {
    var k := c.coords[tx];
    if heard && tx !in c.sites[s].st.buffers {
      MemoryMoved(c, AfterStart(c, tx, s, heard), tx, k.(involved := k.involved + {s}));
    }
  }

  /** Abort of an active transaction is the action GiveUp, and its messages are sent. */
  lemma AbortIsAction(c: State, tx: TxId)
    requires tx in c.coords && c.coords[tx].phase.Active?
    ensures var (m, r, sent) := R.OnGiveUp(MemoryOf(c), tx);
            && m == MemoryOf(Next(c, GiveUp(tx))) && r == Ok(())
            && Told(c, Next(c, GiveUp(tx)), tx, sent)
  {
    var involved := c.coords[tx].involved;
    AbortsTold(c, c, AbortAll(c, tx), tx, involved, R.OnGiveUp(MemoryOf(c), tx).2);
    MemoryMoved(c, AbortAll(c, tx), tx, c.coords[tx].(phase := Aborted));
  }

  // ---------------------------------------------------------------- the commit call

  /** What the shards that said COMMIT answered is what they vote when asked at these times. */
  ghost predicate Honest(c: State, tx: TxId, yes: set<ShardId>, replies: map<ShardId, R.Reply>, nows: map<ShardId, u64>)
    requires tx in c.coords
  {
    forall s <- yes ::
      && s in c.sites && s in nows && R.SaidYes(replies, s) && Hlc.TickFits(TsOf(c, s), nows[s])
      && Site.Prepare(c.sites[s], tx, c.coords[tx].iso, nows[s]).1 ==
         Shard.Ballot(Shard.VoteCommit, R.VoteOf(replies, s).time, None)
  }

  /** Votes are being collected, `todo` is still to be heard of the shards that say COMMIT. */
  ghost predicate Collecting(c: State, tx: TxId, todo: set<ShardId>, replies: map<ShardId, R.Reply>,
                             nows: map<ShardId, u64>) {
    && tx in c.coords && c.coords[tx].phase.Preparing? && todo <= c.coords[tx].involved
    && Honest(c, tx, todo, replies, nows)
    && forall s <- todo :: AskPrepare(tx, s) in c.net
  }

  /** The other shards still have the request coming. */
  predicate StillAsked(c: State, c': State, tx: TxId, heard: set<ShardId>) {
    forall m <- c.net :: m.AskPrepare? && m.tx == tx && m.shard !in heard ==> m in c'.net
  }

  /** One shard votes COMMIT and is heard. */
  lemma HearOne(c: State, tx: TxId, s: ShardId, todo: set<ShardId>, replies: map<ShardId, R.Reply>,
                nows: map<ShardId, u64>) returns (c': State)
    requires Collecting(c, tx, todo, replies, nows) && s in todo
    ensures var time := R.VoteOf(replies, s).time;
            && Legal(c, [Prepare(tx, s, nows[s]), HearVote(tx, s, Shard.VoteCommit, time)])
            && Run(c, [Prepare(tx, s, nows[s]), HearVote(tx, s, Shard.VoteCommit, time)]) == c'
            && Collecting(c', tx, todo - {s}, replies, nows) && c'.clock == c.clock
            && c'.coords == c.coords[tx := c.coords[tx].(results := c.coords[tx].results[s := time])]
            && c'.sites == c.sites[s := Site.Prepare(c.sites[s], tx, c.coords[tx].iso, nows[s]).0]
            && StillAsked(c, c', tx, {s}) && SameOutcomes(c, c')
  {
    var time, now := R.VoteOf(replies, s).time, nows[s];
    var c1 := AfterPrepare(c, tx, s, now);
    c' := AfterHear(c1, tx, s, Shard.VoteCommit, time);
    Runs.TwoActions(c, Prepare(tx, s, now), HearVote(tx, s, Shard.VoteCommit, time));
  }

  /** The votes of these shards have been heard and nothing else has happened. */
  ghost predicate Heard(c: State, c': State, tx: TxId, yes: set<ShardId>, replies: map<ShardId, R.Reply>,
                        nows: map<ShardId, u64>)
    requires tx in c.coords && Honest(c, tx, yes, replies, nows)
  {
    var k := c.coords[tx];
    && c'.clock == c.clock
    && c'.coords == c.coords[tx := k.(results := k.results + R.Times(replies, yes))]
    && (forall s <- yes :: s in c'.sites && c'.sites[s] == Site.Prepare(c.sites[s], tx, k.iso, nows[s]).0)
    && (forall s <- c.sites :: s !in yes ==> s in c'.sites && c'.sites[s] == c.sites[s])
  }

  lemma HeardMore(c: State, c1: State, c': State, tx: TxId, s: ShardId, todo: set<ShardId>,
                  replies: map<ShardId, R.Reply>, nows: map<ShardId, u64>)
    requires tx in c.coords && s in todo && Honest(c, tx, todo, replies, nows)
    requires c1.clock == c.clock && c1.coords ==
             c.coords[tx := c.coords[tx].(results := c.coords[tx].results[s := R.VoteOf(replies, s).time])]
    requires c1.sites == c.sites[s := Site.Prepare(c.sites[s], tx, c.coords[tx].iso, nows[s]).0]
    requires Honest(c1, tx, todo - {s}, replies, nows) && Heard(c1, c', tx, todo - {s}, replies, nows)
    ensures Heard(c, c', tx, todo, replies, nows)
  {
    var k := c.coords[tx];
    MoreTimes(k.results, replies, todo, s);
    Runs.NextCoord(c.coords, tx, c1.coords[tx], k.(results := k.results + R.Times(replies, todo)));
    forall r | r in todo ensures r in c'.sites && c'.sites[r] == Site.Prepare(c.sites[r], tx, k.iso, nows[r]).0 {
      if r == s {
        assert c'.sites[r] == c1.sites[r];
      } else {
        assert r in todo - {s} && c1.sites[r] == c.sites[r];
      }
    }
  }

  lemma MoreTimes(results: map<ShardId, u64>, replies: map<ShardId, R.Reply>, todo: set<ShardId>, s: ShardId)
    requires s in todo && R.AllSaidYes(replies, todo)
    ensures results[s := R.VoteOf(replies, s).time] + R.Times(replies, todo - {s}) == results + R.Times(replies, todo)
  {
  }

  /** All of them, in any order. */
  lemma {:induction false} HearAll(c: State, tx: TxId, todo: set<ShardId>, replies: map<ShardId, R.Reply>,
                                   nows: map<ShardId, u64>)
    returns (actions: seq<Action>)
    requires Collecting(c, tx, todo, replies, nows)
    ensures Legal(c, actions) && Heard(c, Run(c, actions), tx, todo, replies, nows)
    ensures StillAsked(c, Run(c, actions), tx, todo) && SameOutcomes(c, Run(c, actions))
    decreases |todo|
  {
    if todo == {} {
      actions := [];
      assert c.coords[tx].results + R.Times(replies, {}) == c.coords[tx].results;
    } else {
      var s :| s in todo;
      var c1 := HearOne(c, tx, s, todo, replies, nows);
      var rest := HearAll(c1, tx, todo - {s}, replies, nows);
      var pair := [Prepare(tx, s, nows[s]), HearVote(tx, s, Shard.VoteCommit, R.VoteOf(replies, s).time)];
      Runs.RunThen(c, pair, rest);
      actions := pair + rest;
      HeardMore(c, c1, Run(c1, rest), tx, s, todo, replies, nows);
    }
  }

  lemma ActiveHasNoResults(c: State, tx: TxId)
    requires Inv(c) && tx in c.coords && c.coords[tx].phase.Active?
    ensures c.coords[tx].results == map[]
  {
    var k := c.coords[tx];
    assert CoordTrue(c, tx);
    forall s | s in k.involved ensures s !in k.results {
      assert Pair(c, tx, s) && RecordsTrue(c, tx, s);
    }
    assert k.results.Keys <= k.involved && k.results.Keys !! k.involved;
    assert k.results.Keys == {};
  }

  lemma Cons(c: State, a: Action, rest: seq<Action>)
    requires Enabled(c, a) && Legal(Next(c, a), rest)
    ensures Legal(c, [a] + rest) && Run(c, [a] + rest) == Run(Next(c, a), rest)
  {
    assert ([a] + rest)[1..] == rest;
  }

  /** The shards that were asked and said COMMIT. */
  function Yes(involved: set<ShardId>, replies: map<ShardId, R.Reply>, sent: set<R.Sent>): set<ShardId> {
    set s | s in involved && R.SentPrepare(s) in sent && R.SaidYes(replies, s)
  }

  /** Phase one is over: these shards have promised and been heard. */
  ghost predicate Promised(c: State, c1: State, tx: TxId, yes: set<ShardId>, replies: map<ShardId, R.Reply>,
                           nows: map<ShardId, u64>)
    requires tx in c.coords && Honest(c, tx, yes, replies, nows)
  {
    && c1.clock == c.clock
    && c1.coords == c.coords[tx := c.coords[tx].(phase := Preparing, results := R.Times(replies, yes))]
    && SitesAsked(c, c1, tx, yes, nows)
  }

  /** These shards have prepared the transaction, with whatever vote, and the others are as they were. */
  ghost predicate SitesAsked(c: State, c1: State, tx: TxId, yes: set<ShardId>, nows: map<ShardId, u64>)
    requires tx in c.coords && yes <= c.sites.Keys && yes <= nows.Keys
    requires forall s <- yes :: Hlc.TickFits(TsOf(c, s), nows[s])
  {
    && (forall s <- yes :: s in c1.sites && c1.sites[s] == Site.Prepare(c.sites[s], tx, c.coords[tx].iso, nows[s]).0)
    && forall s <- c.sites :: s !in yes ==> s in c1.sites && c1.sites[s] == c.sites[s]
  }

  lemma PhaseOne(c: State, tx: TxId, yes: set<ShardId>, replies: map<ShardId, R.Reply>, nows: map<ShardId, u64>)
    returns (actions: seq<Action>, c1: State)
    requires CanAsk(c, tx) && c.coords[tx].results == map[] && yes <= c.coords[tx].involved
    requires Honest(c, tx, yes, replies, nows)
    ensures Legal(c, actions) && Run(c, actions) == c1 && Promised(c, c1, tx, yes, replies, nows)
    ensures forall s <- c.coords[tx].involved :: s !in yes ==> AskPrepare(tx, s) in c1.net
    ensures SameOutcomes(c, c1)
  {
    var asked := AfterAsk(c, tx);
    AskedCollecting(c, tx, yes, replies, nows);
    var rest := HearAll(asked, tx, yes, replies, nows);
    Cons(c, AskVotes(tx), rest);
    actions, c1 := [AskVotes(tx)] + rest, Run(asked, rest);
    HeardIsPromised(c, asked, c1, tx, yes, replies, nows);
    forall s | s in c.coords[tx].involved && s !in yes ensures AskPrepare(tx, s) in c1.net {
      assert AskPrepare(tx, s) in asked.net;
    }
  }

  lemma AskedCollecting(c: State, tx: TxId, yes: set<ShardId>, replies: map<ShardId, R.Reply>, nows: map<ShardId, u64>)
    requires CanAsk(c, tx) && yes <= c.coords[tx].involved && Honest(c, tx, yes, replies, nows)
    ensures Collecting(AfterAsk(c, tx), tx, yes, replies, nows)
  {
  }

  lemma HeardIsPromised(c: State, asked: State, c1: State, tx: TxId, yes: set<ShardId>,
                        replies: map<ShardId, R.Reply>, nows: map<ShardId, u64>)
    requires tx in c.coords && c.coords[tx].results == map[] && Honest(c, tx, yes, replies, nows)
    requires asked.clock == c.clock && asked.sites == c.sites
    requires asked.coords == c.coords[tx := c.coords[tx].(phase := Preparing)]
    requires Honest(asked, tx, yes, replies, nows) && Heard(asked, c1, tx, yes, replies, nows)
    ensures Promised(c, c1, tx, yes, replies, nows)
  {
    var k := c.coords[tx];
    assert map[] + R.Times(replies, yes) == R.Times(replies, yes);
    Runs.NextCoord(c.coords, tx, k.(phase := Preparing), k.(phase := Preparing, results := R.Times(replies, yes)));
  }

  lemma LastAction(c: State, actions: seq<Action>, c1: State, a: Action)
    requires Legal(c, actions) && Run(c, actions) == c1 && Enabled(c1, a)
    ensures Legal(c, actions + [a]) && Run(c, actions + [a]) == Next(c1, a)
  {
    Runs.RunLonger(c, actions, a);
  }

  /** What the object's contract says of a commit call that succeeds. */
  lemma CommittedCall(m: R.Memory, tx: TxId, replies: map<ShardId, R.Reply>, now: u64, at: u64, sent: set<R.Sent>,
                      m': R.Memory)
    requires tx in m.active && R.Commits(m, tx, replies, now, Ok(at), sent, m')
    ensures var involved := m.active[tx].involved;
            && R.AllSaidYes(replies, involved)
            && at == R.CommitTime(m.clock, R.Times(replies, involved), now)
            && m' == R.Memory(m.active - {tx}, at)
            && R.EachTold(involved, at, sent)
  {
  }

  /** A commit call whose shards all say COMMIT is a run that ends with the decision. */
  lemma CommitIsRun(c: State, tx: TxId, replies: map<ShardId, R.Reply>, nows: map<ShardId, u64>, now: u64,
                    at: u64, sent: set<R.Sent>, m': R.Memory)
    returns (actions: seq<Action>)
    requires Reachable(c) && CanAsk(c, tx) && R.Commits(MemoryOf(c), tx, replies, now, Ok(at), sent, m')
    requires Honest(c, tx, c.coords[tx].involved, replies, nows)
    requires Hlc.UpdateFits(c.clock, R.MaxTime(R.Times(replies, c.coords[tx].involved)), now)
    ensures Legal(c, actions)
    ensures var c' := Run(c, actions);
            && MemoryOf(c') == m' && tx in c'.coords && c'.coords[tx].phase == Committed(at)
            && Told(c, c', tx, sent)
            && SitesAsked(c, c', tx, c.coords[tx].involved, nows)
  {
    var yes := c.coords[tx].involved;
    ReachableInv(c);
    ActiveHasNoResults(c, tx);
    var asking, c1 := PhaseOne(c, tx, yes, replies, nows);
    CommittedCall(MemoryOf(c), tx, replies, now, at, sent, m');
    DecideAnswers(c, c1, tx, replies, nows, now);
    SitesStay(c, c1, Next(c1, Decide(tx, now)), tx, yes, nows);
    CommitsTold(c, c1, Next(c1, Decide(tx, now)), tx, yes, at, sent);
    LastAction(c, asking, c1, Decide(tx, now));
    actions := asking + [Decide(tx, now)];
  }

  /** After phase one the decision leaves what the call answers. */
  lemma DecideAnswers(c: State, c1: State, tx: TxId, replies: map<ShardId, R.Reply>, nows: map<ShardId, u64>, now: u64)
    requires CanAsk(c, tx) && Honest(c, tx, c.coords[tx].involved, replies, nows)
    requires Promised(c, c1, tx, c.coords[tx].involved, replies, nows)
    requires Hlc.UpdateFits(c.clock, R.MaxTime(R.Times(replies, c.coords[tx].involved)), now)
    ensures Enabled(c1, Decide(tx, now))
    ensures var c', at := Next(c1, Decide(tx, now)),
                      R.CommitTime(c.clock, R.Times(replies, c.coords[tx].involved), now);
            && MemoryOf(c') == R.Memory(MemoryOf(c).active - {tx}, at)
            && tx in c'.coords && c'.coords[tx].phase == Committed(at)
            && AddsCommits(c1, c', tx, c.coords[tx].involved, at)
            && c'.sites == c1.sites
  {
    DecideMoves(c, c1, tx, R.Times(replies, c.coords[tx].involved), now);
  }

  lemma SitesStay(c: State, c1: State, c2: State, tx: TxId, yes: set<ShardId>, nows: map<ShardId, u64>)
    requires tx in c.coords && yes <= c.sites.Keys && yes <= nows.Keys && c2.sites == c1.sites
    requires forall s <- yes :: Hlc.TickFits(TsOf(c, s), nows[s])
    requires SitesAsked(c, c1, tx, yes, nows)
    ensures SitesAsked(c, c2, tx, yes, nows)
  {
  }

  lemma DecideMoves(c: State, c1: State, tx: TxId, times: map<ShardId, u64>, now: u64)
    requires tx in c.coords && c1.clock == c.clock && times.Keys == c.coords[tx].involved
    requires c1.coords == c.coords[tx := c.coords[tx].(phase := Preparing, results := times)]
    requires Hlc.UpdateFits(c.clock, R.MaxTime(times), now)
    ensures CanDecide(c1, tx, now)
    ensures var c', at := AfterDecide(c1, tx, now), R.CommitTime(c.clock, times, now);
            && MemoryOf(c') == R.Memory(MemoryOf(c).active - {tx}, at)
            && tx in c'.coords && c'.coords[tx].phase == Committed(at) && c'.sites == c1.sites
            && AddsCommits(c1, c', tx, c.coords[tx].involved, at)
  {
    var k := c.coords[tx].(phase := Committed(R.CommitTime(c.clock, times, now)), results := times);
    var c' := AfterDecide(c1, tx, now);
    Runs.NextCoord(c.coords, tx, c1.coords[tx], k);
    MemoryMoved(c, c', tx, k);
  }

  /** What the object's contract says of a commit call that fails. */
  lemma FailedCall(m: R.Memory, tx: TxId, replies: map<ShardId, R.Reply>, now: u64, error: R.RouterError,
                   sent: set<R.Sent>, m': R.Memory)
    requires tx in m.active && R.Commits(m, tx, replies, now, Err(error), sent, m')
    ensures m' == R.Memory(m.active - {tx}, m.clock)
    ensures R.EachAborted(m.active[tx].involved, sent)
  {
  }

  /** A commit call that fails because a request or every answer to it got lost is a run
      that ends with giving up; the shards that were asked and said COMMIT have promised. */
  lemma FailureIsRun(c: State, tx: TxId, replies: map<ShardId, R.Reply>, nows: map<ShardId, u64>, now: u64,
                     error: R.RouterError, sent: set<R.Sent>, m': R.Memory)
    returns (actions: seq<Action>)
    requires Reachable(c) && CanAsk(c, tx) && R.Commits(MemoryOf(c), tx, replies, now, Err(error), sent, m')
    requires Honest(c, tx, Yes(c.coords[tx].involved, replies, sent), replies, nows)
    ensures Legal(c, actions)
    ensures var c' := Run(c, actions);
            && MemoryOf(c') == m' && tx in c'.coords && c'.coords[tx].phase == Aborted
            && Told(c, c', tx, sent)
            && SitesAsked(c, c', tx, Yes(c.coords[tx].involved, replies, sent), nows)
  {
    var yes := Yes(c.coords[tx].involved, replies, sent);
    ReachableInv(c);
    ActiveHasNoResults(c, tx);
    var asking, c1 := PhaseOne(c, tx, yes, replies, nows);
    FailedCall(MemoryOf(c), tx, replies, now, error, sent, m');
    GiveUpMoves(c, c1, tx, R.Times(replies, yes));
    AbortsTold(c, c1, Next(c1, GiveUp(tx)), tx, c.coords[tx].involved, sent);
    LastAction(c, asking, c1, GiveUp(tx));
    actions := asking + [GiveUp(tx)];
  }

  lemma GiveUpMoves(c: State, c1: State, tx: TxId, times: map<ShardId, u64>)
    requires tx in c.coords && c1.clock == c.clock
    requires c1.coords == c.coords[tx := c.coords[tx].(phase := Preparing, results := times)]
    ensures CanGiveUp(c1, tx)
    ensures var c' := AbortAll(c1, tx);
            && MemoryOf(c') == R.Memory(MemoryOf(c).active - {tx}, c.clock)
            && tx in c'.coords && c'.coords[tx].phase == Aborted && c'.sites == c1.sites
            && AddsAborts(c1, c', tx, c.coords[tx].involved)
  {
    var k := c.coords[tx].(phase := Aborted, results := times);
    Runs.NextCoord(c.coords, tx, c1.coords[tx], k);
    MemoryMoved(c, AbortAll(c1, tx), tx, k);
  }

  /** A commit call that fails at a shard that was reached is a run in which that shard
      votes too: its ABORT vote is heard, or its vote, whichever it was, gets lost. */
  lemma RefusalIsRun(c: State, tx: TxId, replies: map<ShardId, R.Reply>, nows: map<ShardId, u64>, now: u64,
                     error: R.RouterError, sent: set<R.Sent>, m': R.Memory, s: ShardId)
    returns (actions: seq<Action>)
    requires Reachable(c) && CanAsk(c, tx) && R.Commits(MemoryOf(c), tx, replies, now, Err(error), sent, m')
    requires Honest(c, tx, Yes(c.coords[tx].involved, replies, sent), replies, nows)
    requires s in c.coords[tx].involved && R.SentPrepare(s) in sent && Refuses(c, tx, s, replies, nows)
    ensures Legal(c, actions) && Prepare(tx, s, nows[s]) in actions
    ensures R.VoteOf(replies, s).Voted? ==> HearVote(tx, s, Shard.VoteAbort, R.VoteOf(replies, s).time) in actions
    ensures var c' := Run(c, actions);
            && MemoryOf(c') == m' && tx in c'.coords && c'.coords[tx].phase == Aborted
            && Told(c, c', tx, sent)
            && SitesAsked(c, c', tx, Yes(c.coords[tx].involved, replies, sent) + {s}, nows)
  {
    var yes, vote := Yes(c.coords[tx].involved, replies, sent), Prepare(tx, s, nows[s]);
    ReachableInv(c);
    ActiveHasNoResults(c, tx);
    var asking, c1 := PhaseOne(c, tx, yes, replies, nows);
    FailedCall(MemoryOf(c), tx, replies, now, error, sent, m');
    var last := RefusalEnds(c, c1, tx, yes, replies, nows, s);
    AbortsTold(c, c1, Next(Next(c1, vote), last), tx, c.coords[tx].involved, sent);
    actions := LastTwo(c, asking, c1, vote, last);
  }

  lemma LastTwo(c: State, actions: seq<Action>, c1: State, a: Action, b: Action) returns (more: seq<Action>)
    requires Legal(c, actions) && Run(c, actions) == c1 && Enabled(c1, a) && Enabled(Next(c1, a), b)
    ensures Legal(c, more) && Run(c, more) == Next(Next(c1, a), b) && a in more && b in more
  {
    LastAction(c, actions, c1, a);
    LastAction(c, actions + [a], Next(c1, a), b);
    more := actions + [a] + [b];
    assert more[|actions|] == a && more[|actions| + 1] == b;
  }

  lemma RefusalEnds(c: State, c1: State, tx: TxId, yes: set<ShardId>, replies: map<ShardId, R.Reply>,
                    nows: map<ShardId, u64>, s: ShardId) returns (last: Action)
    requires tx in c.coords && Honest(c, tx, yes, replies, nows) && Promised(c, c1, tx, yes, replies, nows)
    requires Refuses(c, tx, s, replies, nows) && s !in yes && AskPrepare(tx, s) in c1.net
    ensures Enabled(c1, Prepare(tx, s, nows[s])) && Enabled(Next(c1, Prepare(tx, s, nows[s])), last)
    ensures R.VoteOf(replies, s).Voted? ==> last == HearVote(tx, s, Shard.VoteAbort, R.VoteOf(replies, s).time)
    ensures var c' := Next(Next(c1, Prepare(tx, s, nows[s])), last);
            && MemoryOf(c') == R.Memory(MemoryOf(c).active - {tx}, c.clock)
            && tx in c'.coords && c'.coords[tx].phase == Aborted
            && AddsAborts(c1, c', tx, c.coords[tx].involved)
            && SitesAsked(c, c', tx, yes + {s}, nows)
  {
    var heard := R.VoteOf(replies, s).Voted?;
    last := if heard then HearVote(tx, s, Shard.VoteAbort, R.VoteOf(replies, s).time) else GiveUp(tx);
    var c2 := RefuserVotes(c, c1, tx, yes, replies, nows, s);
    RefusalMoves(c, c2, tx, R.Times(replies, yes), s, heard, R.VoteOf(replies, s));
    SitesStay(c, c2, Next(c2, last), tx, yes + {s}, nows);
  }

  /** What the router has of this shard is its ABORT vote, or nothing. */
  ghost predicate Refuses(c: State, tx: TxId, s: ShardId, replies: map<ShardId, R.Reply>, nows: map<ShardId, u64>)
    requires tx in c.coords
  {
    && s in c.sites && s in nows && Hlc.TickFits(TsOf(c, s), nows[s])
    && var ballot := Site.Prepare(c.sites[s], tx, c.coords[tx].iso, nows[s]).1;
       R.VoteOf(replies, s) == R.NoReply ||
       (ballot.vote == Shard.VoteAbort && R.VoteOf(replies, s) == R.Voted(Shard.VoteAbort, ballot.time))
  }

  lemma RefuserVotes(c: State, c1: State, tx: TxId, yes: set<ShardId>, replies: map<ShardId, R.Reply>,
                     nows: map<ShardId, u64>, s: ShardId) returns (c2: State)
    requires tx in c.coords && Honest(c, tx, yes, replies, nows) && Promised(c, c1, tx, yes, replies, nows)
    requires Refuses(c, tx, s, replies, nows) && s !in yes && AskPrepare(tx, s) in c1.net
    ensures CanPrepare(c1, tx, s, nows[s]) && c2 == AfterPrepare(c1, tx, s, nows[s])
    ensures c2.clock == c1.clock && c2.coords == c1.coords && SitesAsked(c, c2, tx, yes + {s}, nows)
    ensures SameOutcomes(c1, c2)
    ensures R.VoteOf(replies, s).Voted? ==> VoteReply(tx, s, Shard.VoteAbort, R.VoteOf(replies, s).time) in c2.net
  {
    assert c1.sites[s] == c.sites[s];
    c2 := AfterPrepare(c1, tx, s, nows[s]);
  }

  lemma RefusalMoves(c: State, c2: State, tx: TxId, times: map<ShardId, u64>, s: ShardId, heard: bool, reply: R.Reply)
    requires tx in c.coords && c2.clock == c.clock
    requires c2.coords == c.coords[tx := c.coords[tx].(phase := Preparing, results := times)]
    requires heard ==> reply.Voted? && VoteReply(tx, s, Shard.VoteAbort, reply.time) in c2.net
    ensures var last := if heard then HearVote(tx, s, Shard.VoteAbort, reply.time) else GiveUp(tx);
            && Enabled(c2, last)
            && var c' := Next(c2, last);
               && MemoryOf(c') == R.Memory(MemoryOf(c).active - {tx}, c.clock)
               && tx in c'.coords && c'.coords[tx].phase == Aborted && c'.sites == c2.sites
               && AddsAborts(c2, c', tx, c.coords[tx].involved)
  {
    if heard {
      GiveUpMoves(c, Dropped(c2, VoteReply(tx, s, Shard.VoteAbort, reply.time)), tx, times);
    } else {
      GiveUpMoves(c, c2, tx, times);
    }
  }
}
