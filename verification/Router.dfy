/** The transaction router: transaction contexts, the choice of a commit time, and
    the coordinator of two-phase commit. */
module Router {
  import opened Basics
  import Hlc
  import opened Shard

  // ---------------------------------------------------------------- transaction names

  function Decimal(n: nat): (s: string)
    ensures s != []
  {
    var digit := ('0' as int + n % 10) as char;
    if n < 10 then [digit] else Decimal(n / 10) + [digit]
  }

  /** The number a string of decimal digits stands for. */
  function DigitsOf(s: string): int {
    if s == [] then 0 else DigitsOf(s[..|s| - 1]) * 10 + (s[|s| - 1] as int - '0' as int)
  }

  /** It is the base-ten numeral: digits only, no leading zero, and they evaluate to the number. */
  lemma {:induction false} DecimalIsNumeral(n: nat)
    ensures forall c <- Decimal(n) :: '0' <= c <= '9'
    ensures DigitsOf(Decimal(n)) == n && (Decimal(n)[0] == '0' <==> n == 0)
  {
    var s, digit := Decimal(n), ('0' as int + n % 10) as char;
    if n < 10 {
      assert s == [digit] && s[..0] == [];
    } else {
      DecimalIsNumeral(n / 10);
      var init := Decimal(n / 10);
      assert s == init + [digit] && s[..|s| - 1] == init;
      assert s[0] == init[0];
    }
  }

  /** The name the router gives a transaction: "tx_" and the topology version. */
  function TxName(version: u64): TxId {
    Text("tx_" + Decimal(version))
  }

  lemma {:induction false} DecimalInjective(m: nat, n: nat)
    requires Decimal(m) == Decimal(n)
    ensures m == n
  {
    var s, t := Decimal(m), Decimal(n);
    assert s[|s| - 1] == ('0' as int + m % 10) as char && t[|t| - 1] == ('0' as int + n % 10) as char;
    assert m % 10 == n % 10;
    if m >= 10 && n >= 10 {
      assert Decimal(m / 10) == s[..|s| - 1] && Decimal(n / 10) == t[..|t| - 1];
      DecimalInjective(m / 10, n / 10);
    }
  }

  lemma TxNameInjective(v: u64, w: u64)
    requires TxName(v) == TxName(w)
    ensures v == w
  {
    assert Decimal(v) == TxName(v).chars[3..] && Decimal(w) == TxName(w).chars[3..];
    DecimalInjective(v, w);
  }

  // ---------------------------------------------------------------- the commit time

  /** The greatest of the prepare times, 0 when there is none. */
  ghost function MaxTime(times: map<ShardId, u64>): u64
    decreases |times|
  {
    if times == map[] then 0 else
      var s :| s in times;
      Max(times[s], MaxTime(times - {s}))
  }

  lemma {:induction false} MaxTimeLaw(times: map<ShardId, u64>)
    ensures forall s <- times :: times[s] <= MaxTime(times)
    ensures times != map[] ==> exists s <- times :: times[s] == MaxTime(times)
    decreases |times|
  {
    if times != map[] {
      var s :| s in times && MaxTime(times) == Max(times[s], MaxTime(times - {s}));
      var rest := times - {s};
      assert MaxTime(times) == Max(times[s], MaxTime(rest));
      MaxTimeLaw(rest);
      forall t | t in times ensures times[t] <= MaxTime(times) {
        assert t == s || (t in rest && rest[t] == times[t]);
      }
      if times[s] >= MaxTime(rest) || rest == map[] {
        assert times[s] == MaxTime(times);
      } else {
        var t :| t in rest && rest[t] == MaxTime(rest);
        assert times[t] == MaxTime(times);
      }
    }
  }

  /** The commit time: the router's clock, updated with the greatest prepare time. */
  ghost function CommitTime(clock: u64, times: map<ShardId, u64>, now: u64): u64 {
    Hlc.UpdateTs(clock, MaxTime(times), now)
  }

  /** It is above every prepare time and every earlier reading of the clock. */
  lemma CommitTimeAbove(clock: u64, times: map<ShardId, u64>, now: u64)
    requires Hlc.UpdateFits(clock, MaxTime(times), now)
    ensures clock < CommitTime(clock, times, now)
    ensures forall s <- times :: times[s] < CommitTime(clock, times, now)
  {
    MaxTimeLaw(times);
    Hlc.UpdateGrowsIff(clock, MaxTime(times), now);
  }

  /** Exactly: the physical time if it is ahead, and otherwise one more than the greatest
      of the prepare times and the clock. */
  lemma CommitTimeExact(clock: u64, times: map<ShardId, u64>, now: u64)
    requires Hlc.UpdateFits(clock, MaxTime(times), now)
    ensures var at := CommitTime(clock, times, now);
            at == if now > Hlc.Physical(clock) && forall s <- times :: now > Hlc.Physical(times[s])
                  then now * TWO_16 % TWO_64 else Max(clock, MaxTime(times)) + 1
  {
    MaxTimeLaw(times);
    Hlc.UpdateExact(clock, MaxTime(times), now);
    forall s | s in times ensures Hlc.Physical(times[s]) <= Hlc.Physical(MaxTime(times)) {
    }
  }

  // ---------------------------------------------------------------- calls and messages

  datatype TxContext = TxContext(snapshot: u64, iso: Isolation, involved: set<ShardId>)

  datatype RouterError = AlreadyExists | NotFound | StartFailed | PrepareFailed

  /** What a prepare call brings back: nothing usable, or a vote. */
  datatype Reply = NoReply | Voted(vote: Vote, time: u64)

  /** A two-phase-commit message to one shard. */
  datatype Sent = SentPrepare(shard: ShardId) | SentCommit(shard: ShardId, at: u64) | SentAbort(shard: ShardId)

  function VoteOf(replies: map<ShardId, Reply>, s: ShardId): Reply {
    if s in replies then replies[s] else NoReply
  }

  predicate SaidYes(replies: map<ShardId, Reply>, s: ShardId) {
    VoteOf(replies, s).Voted? && VoteOf(replies, s).vote == VoteCommit
  }

  predicate AllSaidYes(replies: map<ShardId, Reply>, involved: set<ShardId>) {
    forall s <- involved :: SaidYes(replies, s)
  }

  function Times(replies: map<ShardId, Reply>, involved: set<ShardId>): map<ShardId, u64>
    requires AllSaidYes(replies, involved)
  {
    map s | s in involved :: VoteOf(replies, s).time
  }

  function PreparesTo(involved: set<ShardId>): set<Sent> {
    set s | s in involved :: SentPrepare(s)
  }

  function CommitsTo(involved: set<ShardId>, at: u64): set<Sent> {
    set s | s in involved :: SentCommit(s, at)
  }

  function AbortsTo(involved: set<ShardId>): set<Sent> {
    set s | s in involved :: SentAbort(s)
  }

  // ---------------------------------------------------------------- the calls as functions

  /** What the router remembers. */
  datatype Memory = Memory(active: map<TxId, TxContext>, clock: u64)

  /** The topology version and the snapshot are two ticks of the one clock. */
  function OnBegin(m: Memory, iso: Isolation, now1: u64, now2: u64): (Memory, Result<TxId, RouterError>) {
    var version := Hlc.TickTs(m.clock, now1);
    var id := TxName(version);
    if id in m.active then (m.(clock := version), Err(AlreadyExists))
    else
      var snapshot := Hlc.TickTs(version, now2);
      (Memory(m.active[id := TxContext(snapshot, iso, {})], snapshot), Ok(id))
  }

  /** A shard becomes involved once its start call is known to have succeeded. */
  function OnEnsureStarted(m: Memory, tx: TxId, shard: ShardId, started: bool): (Memory, Result<(), RouterError>)
    requires tx in m.active
  {
    var c := m.active[tx];
    if shard in c.involved || started then
      (m.(active := m.active[tx := c.(involved := c.involved + {shard})]), Ok(()))
    else
      (m, Err(StartFailed))
  }

  /** The name is the next reading of the clock and the snapshot the one after that; the
      transaction starts with no shard. */
  lemma BeginLaw(m: Memory, iso: Isolation, now1: u64, now2: u64)
    ensures var version := Hlc.NextTick(m.clock, now1) % TWO_64;
            var snapshot, (m', r) := Hlc.NextTick(version, now2) % TWO_64, OnBegin(m, iso, now1, now2);
            && (r.Ok? <==> TxName(version) !in m.active)
            && (r.Ok? ==> && r.value == TxName(version) && m'.clock == snapshot
                          && m'.active == m.active[r.value := TxContext(snapshot, iso, {})])
            && (r.Err? ==> r.error == AlreadyExists && m' == Memory(m.active, version))
            && (Hlc.TickFits(m.clock, now1) && Hlc.TickFits(version, now2) ==> m.clock < version < snapshot)
  {
    var version := Hlc.NextTick(m.clock, now1) % TWO_64;
    Hlc.TickIsNextTick(m.clock, now1);
    Hlc.TickIsNextTick(version, now2);
    Hlc.TickGrowsIff(m.clock, now1);
    Hlc.TickGrowsIff(version, now2);
  }

  function OnGiveUp(m: Memory, tx: TxId): (Memory, Result<(), RouterError>, set<Sent>) {
    if tx !in m.active then (m, Err(NotFound), {})
    else (m.(active := m.active - {tx}), Ok(()), AbortsTo(m.active[tx].involved))
  }

  /** The prepare calls of a phase one that failed: one shard did not say COMMIT, and
      everyone asked besides it did. */
  ghost predicate FailedAsking(replies: map<ShardId, Reply>, involved: set<ShardId>, sent: set<Sent>) {
    exists s :: s in involved && SentPrepare(s) in sent && !SaidYes(replies, s)
                && forall t :: t != s && SentPrepare(t) in sent ==> SaidYes(replies, t)
  }

  /** Every involved shard, and no other, is asked and then sent this commit time, and none an abort. */
  ghost predicate EachTold(involved: set<ShardId>, at: u64, sent: set<Sent>) {
    && (forall s :: SentPrepare(s) in sent <==> s in involved)
    && (forall s, t :: SentCommit(s, t) in sent <==> s in involved && t == at)
    && (forall s :: SentAbort(s) !in sent)
  }

  /** Every involved shard, and no other, is sent an abort, and none a commit time. */
  ghost predicate EachAborted(involved: set<ShardId>, sent: set<Sent>) {
    && (forall s :: SentAbort(s) in sent <==> s in involved)
    && (forall s, t :: SentCommit(s, t) !in sent)
  }

  /** What a commit call may do: the transaction commits if and only if every involved
      shard said COMMIT; then every one of them is sent one commit time, and otherwise
      every one an abort. Which shards were asked before the failing one is open. */
  ghost predicate Commits(m: Memory, tx: TxId, replies: map<ShardId, Reply>, now: u64,
                          r: Result<u64, RouterError>, sent: set<Sent>, m': Memory)
  {
    if tx !in m.active then r == Err(NotFound) && sent == {} && m' == m
    else
      var involved := m.active[tx].involved;
      && m'.active == m.active - {tx}
      && (r.Ok? <==> AllSaidYes(replies, involved))
      && (r.Ok? ==>
            && r.value == m'.clock == CommitTime(m.clock, Times(replies, involved), now)
            && sent == PreparesTo(involved) + CommitsTo(involved, r.value)
            && EachTold(involved, r.value, sent))
      && (r.Err? ==>
            && r.error == PrepareFailed && m'.clock == m.clock
            && AbortsTo(involved) <= sent <= PreparesTo(involved) + AbortsTo(involved)
            && EachAborted(involved, sent)
            && FailedAsking(replies, involved, sent))
  }

  // ---------------------------------------------------------------- the router object

  /** The router. Calls to shards bring back what `replies` says; lost requests, lost
      responses and unknown shards are `NoReply`. */
  class RouterNode {
    const clock: Hlc.Clock
    var activeTxns: map<TxId, TxContext>

    function View(): Memory
      reads this, clock
    {
      Memory(activeTxns, clock.ts)
    }

    constructor ()
      ensures View() == Memory(map[], 0) && fresh(clock)
    {
      clock := new Hlc.Clock();
      activeTxns := map[];
    }

    method BeginTransaction(iso: Isolation, now1: u64, now2: u64) returns (r: Result<TxId, RouterError>)
      modifies this, clock
      ensures (View(), r) == OnBegin(old(View()), iso, now1, now2)
    {
      var version := clock.Tick(now1);
      var txID := TxName(version);
      if txID in activeTxns {
        return Err(AlreadyExists);
      }
      var snapshotTime := clock.Tick(now2);
      activeTxns := activeTxns[txID := TxContext(snapshotTime, iso, {})];
      r := Ok(txID);
    }

    method EnsureShardStarted(tx: TxId, shard: ShardId, started: bool) returns (r: Result<(), RouterError>)
      requires tx in activeTxns
      modifies this
      ensures (View(), r) == OnEnsureStarted(old(View()), tx, shard, started)
      ensures r == if shard in old(activeTxns)[tx].involved || started then Ok(()) else Err(StartFailed)
      ensures tx in activeTxns && activeTxns.Keys == old(activeTxns).Keys
      ensures shard in activeTxns[tx].involved <==> r.Ok?
    {
      var c := activeTxns[tx];
      if shard in c.involved {
        assert c.involved + {shard} == c.involved && activeTxns[tx := c] == activeTxns;
        return Ok(());
      }
      if !started {
        return Err(StartFailed);
      }
      activeTxns := activeTxns[tx := c.(involved := c.involved + {shard})];
      r := Ok(());
    }

    method AbortAll(tx: TxId) returns (sent: set<Sent>)
      requires tx in activeTxns
      modifies this
      ensures activeTxns == old(activeTxns) - {tx}
      ensures sent == AbortsTo(old(activeTxns)[tx].involved) && EachAborted(old(activeTxns)[tx].involved, sent)
    {
      sent := {};
      var todo := activeTxns[tx].involved;
      while todo != {}
        invariant todo <= activeTxns[tx].involved && activeTxns == old(activeTxns)
        invariant sent == AbortsTo(activeTxns[tx].involved - todo)
      {
        var s :| s in todo;
        sent := sent + {SentAbort(s)};
        todo := todo - {s};
      }
      assert activeTxns[tx].involved - todo == activeTxns[tx].involved;
      activeTxns := activeTxns - {tx};
    }

    method Abort(tx: TxId) returns (r: Result<(), RouterError>, sent: set<Sent>)
      modifies this
      ensures (View(), r, sent) == OnGiveUp(old(View()), tx)
      ensures r.Ok? <==> tx in old(activeTxns)
      ensures r.Ok? ==> EachAborted(old(activeTxns)[tx].involved, sent) && activeTxns == old(activeTxns) - {tx}
      ensures r.Err? ==> r.error == NotFound && sent == {} && activeTxns == old(activeTxns)
    {
      if tx !in activeTxns {
        return Err(NotFound), {};
      }
      sent := AbortAll(tx);
      r := Ok(());
    }

    /** Phase one, shard by shard in any order, stopping at the first that does not
        say COMMIT. */
    method CollectVotes(tx: TxId, replies: map<ShardId, Reply>)
      returns (ok: bool, results: map<ShardId, u64>, sent: set<Sent>)
      requires tx in activeTxns
      ensures ok <==> AllSaidYes(replies, activeTxns[tx].involved)
      ensures ok ==> results == Times(replies, activeTxns[tx].involved)
      ensures sent <= PreparesTo(activeTxns[tx].involved)
      ensures ok ==> sent == PreparesTo(activeTxns[tx].involved)
      ensures !ok ==> FailedAsking(replies, activeTxns[tx].involved, sent)
    {
      results, sent := map[], {};
      var involved := activeTxns[tx].involved;
      var todo := involved;
      while todo != {}
        invariant todo <= involved
        invariant AllSaidYes(replies, involved - todo)
        invariant results == Times(replies, involved - todo)
        invariant sent == PreparesTo(involved - todo)
      {
        var s :| s in todo;
        sent := sent + {SentPrepare(s)};
        var reply := VoteOf(replies, s);
        if reply.NoReply? || reply.vote != VoteCommit {
          FailedAt(replies, involved, involved - todo, s);
          return false, results, sent;
        }
        results := results[s := reply.time];
        todo := todo - {s};
      }
      assert involved - todo == involved;
      ok := true;
    }

    method MaxPrepareTime(results: map<ShardId, u64>) returns (commitTime: u64)
      ensures commitTime == MaxTime(results)
    {
      commitTime := 0;
      var todo := results.Keys;
      while todo != {}
        invariant todo <= results.Keys
        invariant forall s <- results.Keys - todo :: results[s] <= commitTime
        invariant commitTime == 0 || exists s <- results.Keys :: results[s] == commitTime
      {
        var s :| s in todo;
        if results[s] > commitTime {
          commitTime := results[s];
        }
        todo := todo - {s};
      }
      MaxTimeLaw(results);
    }

    method Commit(tx: TxId, replies: map<ShardId, Reply>, now: u64)
      returns (r: Result<u64, RouterError>, sent: set<Sent>)
      modifies this, clock
      ensures Commits(old(View()), tx, replies, now, r, sent, View())
    {
      if tx !in activeTxns {
        return Err(NotFound), {};
      }
      var ok, results, asked := CollectVotes(tx, replies);
      if !ok {
        var aborts := AbortAll(tx);
        FailedStays(replies, old(activeTxns)[tx].involved, asked, aborts);
        return Err(PrepareFailed), asked + aborts;
      }
      var commitTime := MaxPrepareTime(results);
      commitTime := clock.Update(commitTime, now);
      var told: set<Sent> := {};
      var involved := activeTxns[tx].involved;
      var todo := involved;
      while todo != {}
        invariant todo <= involved
        invariant told == CommitsTo(involved - todo, commitTime)
      {
        var s :| s in todo;
        told := told + {SentCommit(s, commitTime)};
        todo := todo - {s};
      }
      assert involved - todo == involved;
      activeTxns := activeTxns - {tx};
      r, sent := Ok(commitTime), asked + told;
    }
  }

  lemma FailedAt(replies: map<ShardId, Reply>, involved: set<ShardId>, done: set<ShardId>, s: ShardId)
    requires done <= involved && AllSaidYes(replies, done) && s in involved && !SaidYes(replies, s)
    ensures FailedAsking(replies, involved, PreparesTo(done) + {SentPrepare(s)})
  {
    forall t | SentPrepare(t) in PreparesTo(done) + {SentPrepare(s)} ensures t == s || t in done {
    }
  }

  lemma FailedStays(replies: map<ShardId, Reply>, involved: set<ShardId>, asked: set<Sent>, aborts: set<Sent>)
    requires FailedAsking(replies, involved, asked) && aborts == AbortsTo(involved)
    ensures FailedAsking(replies, involved, asked + aborts)
  {
    forall t ensures SentPrepare(t) in asked + aborts <==> SentPrepare(t) in asked {
    }
  }
}
