/** The whole system as a state machine: one router, any number of shards, and the
    prepare, vote, commit and abort messages between them, which may be lost,
    delayed and reordered but are delivered at most once. */
module Cluster {
  import opened Basics
  import Hlc
  import T = TxStatus
  import opened Shard
  import Site
  import R = Router

  datatype Msg =
    | AskPrepare(tx: TxId, shard: ShardId)
    | VoteReply(tx: TxId, shard: ShardId, vote: Vote, time: u64)
    | DoCommit(tx: TxId, shard: ShardId, at: u64)
    | DoAbort(tx: TxId, shard: ShardId)

  /** Where the router is with a transaction; the last two are final. */
  datatype Phase = Active | Preparing | Committed(at: u64) | Aborted

  datatype Coord = Coord(snapshot: u64, iso: Isolation, involved: set<ShardId>, results: map<ShardId, u64>,
                         phase: Phase)

  /** The router's own history: snapshots taken and commit times chosen, in order. */
  datatype Event = Began(tx: TxId, at: u64) | Decided(tx: TxId, at: u64)

  datatype State = State(clock: u64, coords: map<TxId, Coord>, sites: map<ShardId, Site.Site>,
                         net: set<Msg>, timeline: seq<Event>)

  ghost predicate Initial(c: State) {
    && c.coords == map[] && c.net == {} && c.timeline == []
    && forall s <- c.sites :: Site.Fresh(c.sites[s])
  }

  // ---------------------------------------------------------------- the steps

  datatype Action =
    | Begin(iso: Isolation, now1: u64, now2: u64)
    | Start(tx: TxId, shard: ShardId, heard: bool)
    | Read(tx: TxId, shard: ShardId, key: Key, now: u64)
    | Write(tx: TxId, shard: ShardId, key: Key, value: Text, deleted: bool, now: u64)
    | AskVotes(tx: TxId)
    | Prepare(tx: TxId, shard: ShardId, now: u64)
    | HearVote(tx: TxId, shard: ShardId, vote: Vote, time: u64)
    | GiveUp(tx: TxId)
    | Decide(tx: TxId, now: u64)
    | Commit(tx: TxId, shard: ShardId, at: u64, now: u64)
    | Abort(tx: TxId, shard: ShardId, now: u64)
    | RouterTick(now: u64)

  /** The client calls a shard only while the transaction is active. The router does not
      check that: it is the premise that calls for one transaction never overlap. */
  predicate Calling(c: State, tx: TxId, shard: ShardId) {
    tx in c.coords && c.coords[tx].phase.Active? && shard in c.sites
  }

  function Moved(c: State, tx: TxId, k: Coord): State {
    c.(coords := c.coords[tx := k])
  }

  function AtSite(c: State, s: ShardId, site: Site.Site): State {
    c.(sites := c.sites[s := site])
  }

  function TsOf(c: State, s: ShardId): u64
    requires s in c.sites
  {
    c.sites[s].st.ts
  }

  /** BeginTransaction: the topology version names the transaction, the next tick is its snapshot. */
  function AfterBegin(c: State, iso: Isolation, now1: u64, now2: u64): State {
    var version := Hlc.TickTs(c.clock, now1);
    var id := R.TxName(version);
    if id in c.coords then c.(clock := version)
    else
      var snapshot := Hlc.TickTs(version, now2);
      Moved(c, id, Coord(snapshot, iso, {}, map[], Active))
        .(clock := snapshot, timeline := c.timeline + [Began(id, snapshot)])
  }

  predicate CanStart(c: State, tx: TxId, s: ShardId) {
    Calling(c, tx, s) && s !in c.coords[tx].involved
  }

  /** The shard starts the transaction; the router learns of it only if it hears back. */
  ghost function AfterStart(c: State, tx: TxId, s: ShardId, heard: bool): State
    requires CanStart(c, tx, s)
  {
    var k := c.coords[tx];
    var failed := OnStart(c.sites[s].st, tx).1.Some?;
    var c := AtSite(c, s, Site.Start(c.sites[s], tx));
    if heard && !failed then Moved(c, tx, k.(involved := k.involved + {s})) else c
  }

  predicate CanCall(c: State, tx: TxId, s: ShardId, now: u64) {
    Calling(c, tx, s) && s in c.coords[tx].involved && Hlc.TickFits(TsOf(c, s), now)
  }

  ghost function AfterRead(c: State, tx: TxId, s: ShardId, key: Key, now: u64): State
    requires CanCall(c, tx, s, now)
  {
    AtSite(c, s, Site.Read(c.sites[s], tx, key, c.coords[tx].snapshot, now))
  }

  ghost function AfterWrite(c: State, tx: TxId, s: ShardId, key: Key, value: Text, deleted: bool, now: u64): State
    requires CanCall(c, tx, s, now)
  {
    AtSite(c, s, Site.Write(c.sites[s], tx, key, value, deleted, now))
  }

  predicate CanAsk(c: State, tx: TxId) {
    tx in c.coords && c.coords[tx].phase.Active?
  }

  function AfterAsk(c: State, tx: TxId): State
    requires CanAsk(c, tx)
  {
    var k := c.coords[tx];
    Moved(c, tx, k.(phase := Preparing)).(net := c.net + set s | s in k.involved :: AskPrepare(tx, s))
  }

  predicate CanPrepare(c: State, tx: TxId, s: ShardId, now: u64) {
    AskPrepare(tx, s) in c.net && tx in c.coords && s in c.sites && Hlc.TickFits(TsOf(c, s), now)
  }

  ghost function AfterPrepare(c: State, tx: TxId, s: ShardId, now: u64): State
    requires CanPrepare(c, tx, s, now)
  {
    var (site, ballot) := Site.Prepare(c.sites[s], tx, c.coords[tx].iso, now);
    AtSite(c, s, site).(net := c.net - {AskPrepare(tx, s)} + {VoteReply(tx, s, ballot.vote, ballot.time)})
  }

  predicate CanHear(c: State, tx: TxId, s: ShardId, vote: Vote, time: u64) {
    VoteReply(tx, s, vote, time) in c.net && tx in c.coords && c.coords[tx].phase.Preparing?
  }

  function Dropped(c: State, m: Msg): State {
    c.(net := c.net - {m})
  }

  /** A COMMIT vote is noted; any other ends the transaction. */
  function AfterHear(c: State, tx: TxId, s: ShardId, vote: Vote, time: u64): State
    requires CanHear(c, tx, s, vote, time)
  {
    var k := c.coords[tx];
    var c := Dropped(c, VoteReply(tx, s, vote, time));
    if vote == VoteCommit then Moved(c, tx, k.(results := k.results[s := time])) else AbortAll(c, tx)
  }

  /** Before the decision the router may give up: while the transaction is active, on the
      client's abort; while votes are collected, when the commit call itself fails. An
      abort that the client sends during its commit call is excluded by the premise that
      calls for one transaction never overlap; module Overlap shows what it would do. */
  predicate CanGiveUp(c: State, tx: TxId) {
    tx in c.coords && (c.coords[tx].phase.Active? || c.coords[tx].phase.Preparing?)
  }

  /** Router.abortAll: the decision is abort, and every involved shard is told. */
  function AbortAll(c: State, tx: TxId): State
    requires tx in c.coords
  {
    var k := c.coords[tx];
    Moved(c, tx, k.(phase := Aborted)).(net := c.net + set s | s in k.involved :: DoAbort(tx, s))
  }

  ghost predicate CanDecide(c: State, tx: TxId, now: u64) {
    && tx in c.coords && c.coords[tx].phase.Preparing?
    && c.coords[tx].results.Keys == c.coords[tx].involved
    && Hlc.UpdateFits(c.clock, R.MaxTime(c.coords[tx].results), now)
  }

  ghost function AfterDecide(c: State, tx: TxId, now: u64): State
    requires CanDecide(c, tx, now)
  {
    var k := c.coords[tx];
    var at := R.CommitTime(c.clock, k.results, now);
    Moved(c, tx, k.(phase := Committed(at)))
      .(clock := at,
        net := c.net + (set s | s in k.involved :: DoCommit(tx, s, at)),
        timeline := c.timeline + [Decided(tx, at)])
  }

  predicate CanCommit(c: State, tx: TxId, s: ShardId, at: u64, now: u64) {
    DoCommit(tx, s, at) in c.net && s in c.sites && Hlc.UpdateFits(TsOf(c, s), at, now)
  }

  ghost function AfterCommit(c: State, tx: TxId, s: ShardId, at: u64, now: u64): State
    requires CanCommit(c, tx, s, at, now)
  {
    Dropped(AtSite(c, s, Site.Commit(c.sites[s], tx, at, now).0), DoCommit(tx, s, at))
  }

  predicate CanAbort(c: State, tx: TxId, s: ShardId, now: u64) {
    DoAbort(tx, s) in c.net && s in c.sites && Hlc.TickFits(TsOf(c, s), now)
  }

  ghost function AfterAbort(c: State, tx: TxId, s: ShardId, now: u64): State
    requires CanAbort(c, tx, s, now)
  {
    Dropped(AtSite(c, s, Site.Abort(c.sites[s], tx, now)), DoAbort(tx, s))
  }

  /** When a step can happen. The clock conditions are the premise that no hybrid clock
      wraps, and the phases in `Calling`, `CanAsk` and `CanGiveUp` the premise that calls
      for one transaction never overlap; the other conditions are met by the code. */
  ghost predicate Enabled(c: State, a: Action) {
    match a
    case Begin(iso, now1, now2) => Hlc.TickFits(c.clock, now1) && Hlc.TickFits(Hlc.TickTs(c.clock, now1), now2)
    case Start(tx, s, heard) => CanStart(c, tx, s)
    case Read(tx, s, key, now) => CanCall(c, tx, s, now)
    case Write(tx, s, key, value, deleted, now) => CanCall(c, tx, s, now)
    case AskVotes(tx) => CanAsk(c, tx)
    case Prepare(tx, s, now) => CanPrepare(c, tx, s, now)
    case HearVote(tx, s, vote, time) => CanHear(c, tx, s, vote, time)
    case GiveUp(tx) => CanGiveUp(c, tx)
    case Decide(tx, now) => CanDecide(c, tx, now)
    case Commit(tx, s, at, now) => CanCommit(c, tx, s, at, now)
    case Abort(tx, s, now) => CanAbort(c, tx, s, now)
    case RouterTick(now) => Hlc.TickFits(c.clock, now)
  }

  ghost function Next(c: State, a: Action): State
    requires Enabled(c, a)
  {
    match a
    case Begin(iso, now1, now2) => AfterBegin(c, iso, now1, now2)
    case Start(tx, s, heard) => AfterStart(c, tx, s, heard)
    case Read(tx, s, key, now) => AfterRead(c, tx, s, key, now)
    case Write(tx, s, key, value, deleted, now) => AfterWrite(c, tx, s, key, value, deleted, now)
    case AskVotes(tx) => AfterAsk(c, tx)
    case Prepare(tx, s, now) => AfterPrepare(c, tx, s, now)
    case HearVote(tx, s, vote, time) => AfterHear(c, tx, s, vote, time)
    case GiveUp(tx) => AbortAll(c, tx)
    case Decide(tx, now) => AfterDecide(c, tx, now)
    case Commit(tx, s, at, now) => AfterCommit(c, tx, s, at, now)
    case Abort(tx, s, now) => AfterAbort(c, tx, s, now)
    case RouterTick(now) => c.(clock := Hlc.TickTs(c.clock, now))
  }

  /** A run: each action happens in the state the ones before it left. */
  ghost predicate Legal(c: State, actions: seq<Action>)
    decreases |actions|
  {
    actions == [] || (Enabled(c, actions[0]) && Legal(Next(c, actions[0]), actions[1..]))
  }

  ghost function Run(c: State, actions: seq<Action>): State
    requires Legal(c, actions)
    decreases |actions|
  {
    if actions == [] then c else Run(Next(c, actions[0]), actions[1..])
  }

  ghost predicate Reachable(c: State) {
    exists c0, actions :: Initial(c0) && Legal(c0, actions) && Run(c0, actions) == c
  }

  // ---------------------------------------------------------------- the invariant

  predicate HasStatus(s: Site.Site, tx: TxId, status: T.Status) {
    tx in s.st.status && s.st.status[tx].status == status
  }

  /** A shard that has not voted on a transaction: no promise, no status. */
  predicate Unvoted(s: Site.Site, tx: TxId) {
    tx !in s.pledges && tx !in s.st.status
  }

  predicate NoVote(net: set<Msg>, tx: TxId, s: ShardId) {
    forall m <- net :: m.VoteReply? && m.tx == tx ==> m.shard != s
  }

  /** The votes of one shard on one transaction, as the network and the router have them. */
  ghost predicate VotesTrue(c: State, tx: TxId, s: ShardId)
    requires tx in c.coords && s in c.sites
  {
    var k, site := c.coords[tx], c.sites[s];
    && (AskPrepare(tx, s) in c.net ==>
          s in k.involved && Unvoted(site, tx) && NoVote(c.net, tx, s)
          && s !in k.results && (k.phase.Preparing? || k.phase.Aborted?))
    && (k.phase.Active? ==> NoVote(c.net, tx, s))
    && (forall time :: VoteReply(tx, s, VoteCommit, time) in c.net ==>
          tx in site.pledges && site.pledges[tx].time == time)
    && (forall time :: VoteReply(tx, s, VoteAbort, time) in c.net ==> tx !in site.pledges)
    && (s in k.results ==> tx in site.pledges && site.pledges[tx].time == k.results[s])
  }

  /** The shard's own record against the router's decision. */
  ghost predicate RecordsTrue(c: State, tx: TxId, s: ShardId)
    requires tx in c.coords && s in c.sites
  {
    var k, site := c.coords[tx], c.sites[s];
    && (k.phase.Active? ==> Unvoted(site, tx) && s !in k.results)
    && (tx in site.st.status ==> s in k.involved && !HasStatus(site, tx, T.Running))
    && (tx in site.pledges ==> tx in site.st.status && site.st.status[tx].prepareTime == site.pledges[tx].time)
    && (k.phase.Preparing? && tx in site.pledges ==> HasStatus(site, tx, T.Prepared))
    && (HasStatus(site, tx, T.Committed) ==>
          k.phase.Committed? && tx in site.pledges && Site.Applied(tx, k.phase.at, site.pledges[tx]) in site.log)
    && (forall i :: 0 <= i < |site.log| && site.log[i].tx == tx ==>
          && HasStatus(site, tx, T.Committed) && k.phase == Committed(site.log[i].at)
          && tx in site.pledges && site.log[i].pledge == site.pledges[tx]
          && forall j :: i < j < |site.log| ==> site.log[j].tx != tx)
  }

  /** A decision to commit: every involved shard promised, at an earlier time, and has
      either applied it or still has its message coming. */
  ghost predicate DecisionTrue(c: State, tx: TxId, s: ShardId)
    requires tx in c.coords && s in c.sites
  {
    var k, site := c.coords[tx], c.sites[s];
    && (k.phase.Committed? && s in k.involved ==>
          && s in k.results && k.results[s] < k.phase.at
          && HasStatus(site, tx, if DoCommit(tx, s, k.phase.at) in c.net then T.Prepared else T.Committed))
    && (forall at :: DoCommit(tx, s, at) in c.net ==> k.phase == Committed(at) && s in k.involved)
    && (DoAbort(tx, s) in c.net ==> k.phase.Aborted?)
  }

  ghost predicate Pair(c: State, tx: TxId, s: ShardId)
    requires tx in c.coords && s in c.sites
  {
    VotesTrue(c, tx, s) && RecordsTrue(c, tx, s) && DecisionTrue(c, tx, s)
  }

  /** A transaction the router never began has left no trace at a shard. */
  ghost predicate Unknown(s: Site.Site, tx: TxId) {
    && Unvoted(s, tx) && tx !in s.st.buffers
    && forall i :: 0 <= i < |s.log| ==> s.log[i].tx != tx
  }

  ghost predicate CoordTrue(c: State, tx: TxId)
    requires tx in c.coords
  {
    var k := c.coords[tx];
    && k.involved <= c.sites.Keys && k.results.Keys <= k.involved
    && (exists v: u64 :: v <= c.clock && tx == R.TxName(v))
    && Began(tx, k.snapshot) in c.timeline
    && (k.phase.Committed? ==> k.results.Keys == k.involved && Decided(tx, k.phase.at) in c.timeline)
  }

  /** The router's readings strictly increase and the clock has caught up with them. */
  ghost predicate TimelineTrue(c: State) {
    && (forall i, j :: 0 <= i < j < |c.timeline| ==> c.timeline[i].at < c.timeline[j].at)
    && (forall i :: 0 <= i < |c.timeline| ==> c.timeline[i].at <= c.clock)
  }

  ghost predicate NetTrue(c: State) {
    forall m <- c.net :: m.tx in c.coords && m.shard in c.sites
  }

  ghost predicate Inv(c: State) {
    && TimelineTrue(c) && NetTrue(c)
    && (forall s <- c.sites :: Site.Inv(c.sites[s]))
    && (forall tx <- c.coords :: CoordTrue(c, tx))
    && (forall tx, s :: tx in c.coords && s in c.sites ==> Pair(c, tx, s))
    && (forall tx, s :: tx !in c.coords && s in c.sites ==> Unknown(c.sites[s], tx))
  }
}
