/** One shard with the history its steps leave behind: which commits it applied in
    which order, and what each transaction knew when it wrote and when it was
    promised. No step reads the history; it is what the theorems speak of. */
module Site {
  import opened Basics
  import S = Store
  import L = Locks
  import B = Buffer
  import T = TxStatus
  import opened Shard

  /** A COMMIT vote: the buffer it covers, its prepare time, how many commits the
      shard had applied when it was cast (`window`) and when each pending write was
      last buffered (`marks`). */
  datatype Pledge = Pledge(buf: B.Buf, iso: Isolation, time: u64, window: nat, marks: map<Key, nat>)

  datatype Applied = Applied(tx: TxId, at: u64, pledge: Pledge)

  datatype Site = Site(st: State, log: seq<Applied>, marks: map<TxId, map<Key, nat>>, pledges: map<TxId, Pledge>)

  predicate IsPrepared(s: Site, tx: TxId) {
    tx in s.st.status && s.st.status[tx].status == T.Prepared
  }

  ghost predicate Fresh(s: Site) {
    && s.st.data == map[] && s.st.locks == L.EMPTY && s.st.buffers == map[] && s.st.status == map[]
    && s.log == [] && s.marks == map[] && s.pledges == map[]
  }

  // ---------------------------------------------------------------- the steps

  function MarksOf(s: Site, tx: TxId): map<Key, nat> {
    if tx in s.marks then s.marks[tx] else map[]
  }

  ghost function Start(s: Site, tx: TxId): Site {
    s.(st := OnStart(s.st, tx).0)
  }

  ghost function Read(s: Site, tx: TxId, key: Key, snapshot: u64, now: u64): Site {
    s.(st := OnRead(s.st, tx, key, snapshot, now).0)
  }

  ghost function Write(s: Site, tx: TxId, key: Key, value: Text, deleted: bool, now: u64): Site {
    s.(st := OnWrite(s.st, tx, key, value, deleted, now).0,
       marks := if tx in s.st.buffers then s.marks[tx := MarksOf(s, tx)[key := |s.log|]] else s.marks)
  }

  ghost function Prepare(s: Site, tx: TxId, iso: Isolation, now: u64): (Site, Ballot) {
    var (st, ballot) := OnPrepare(s.st, tx, iso, now);
    (s.(st := st,
        pledges := if ballot.vote == VoteCommit && tx in s.st.buffers
                   then s.pledges[tx := Pledge(s.st.buffers[tx], iso, ballot.time, |s.log|, MarksOf(s, tx))]
                   else s.pledges),
     ballot)
  }

  ghost function Commit(s: Site, tx: TxId, at: u64, now: u64): (Site, Option<TxError>) {
    var (st, error) := OnCommit(s.st, tx, at, now);
    (s.(st := st,
        log := if error.None? && tx in s.pledges then s.log + [Applied(tx, at, s.pledges[tx])] else s.log),
     error)
  }

  ghost function Abort(s: Site, tx: TxId, now: u64): Site {
    s.(st := OnAbort(s.st, tx, now))
  }

  // ---------------------------------------------------------------- the applied commits as versions

  predicate Writes(e: Applied, k: Key) {
    k in e.pledge.buf.writes
  }

  ghost predicate SoundLog(log: seq<Applied>) {
    forall i :: 0 <= i < |log| ==> B.Sound(log[i].pledge.buf)
  }

  /** The store the log builds, by the shard's own installation. */
  ghost function Replay(log: seq<Applied>): S.Data {
    if log == [] then map[]
    else
      var e := log[|log| - 1];
      Install(Replay(log[..|log| - 1]), B.Ops(e.pledge.buf), e.at, e.tx)
  }

  /** The version list of a key, read off the log: one entry for each commit that writes it. */
  ghost function History(log: seq<Applied>, k: Key): S.Versions {
    if log == [] then []
    else
      var e := log[|log| - 1];
      History(log[..|log| - 1], k) + if Writes(e, k) then [Entry(e.pledge.buf.writes[k], e.at, e.tx)] else []
  }

  /** The latest visible version of a key after the first `n` commits. */
  ghost function VersionAt(log: seq<Applied>, n: nat, k: Key): u64
    requires n <= |log|
  {
    S.LatestVersion(History(log[..n], k))
  }

  ghost predicate ReadHolds(log: seq<Applied>, n: nat, r: B.ReadRecord)
    requires n <= |log|
  {
    match S.Latest(History(log[..n], r.key))
    case None => !r.found
    case Some(e) => r.found && e.version == r.version
  }

  ghost predicate NoWriter(log: seq<Applied>, from: int, to: int, k: Key) {
    forall i :: 0 <= i < |log| && from <= i < to ==> !Writes(log[i], k)
  }

  /** What a COMMIT vote is worth after `log`: it was cast on a sound buffer after
      `window` commits, all of them below its time; its writes were buffered no later,
      no commit has touched its keys since, every older version of them is below its
      time, and the checks of its level held when it was cast. */
  ghost predicate Stands(log: seq<Applied>, p: Pledge) {
    && B.Sound(p.buf)
    && 0 < p.time && p.window <= |log|
    && (forall i :: 0 <= i < p.window ==> log[i].at < p.time)
    && (forall k <- p.buf.writes ::
          && k in p.marks && p.marks[k] <= p.window
          && p.buf.writes[k].originalVersion == VersionAt(log, p.marks[k], k)
          && NoWriter(log, p.window, |log|, k)
          && (forall i :: 0 <= i < |log| && Writes(log[i], k) ==> log[i].at < p.time))
    && (p.iso == SI || p.iso == SER ==>
          forall k <- p.buf.writes :: p.buf.writes[k].originalVersion == VersionAt(log, p.window, k))
    && (p.iso == SER ==> forall k <- p.buf.readSet :: ReadHolds(log, p.window, p.buf.readSet[k]))
  }

  /** Every commit was applied on a vote that still stood, at a later time. */
  ghost predicate AllStood(log: seq<Applied>) {
    forall j :: 0 <= j < |log| ==> Stands(log[..j], log[j].pledge) && log[j].pledge.time <= log[j].at
  }

  // ---------------------------------------------------------------- the invariant

  /** A promised transaction has its buffer, its exclusive locks on exactly its write
      keys and its prepare time, and its vote stands. */
  ghost predicate Promised(s: Site, tx: TxId) {
    && tx in s.pledges && tx in s.st.buffers && tx in s.st.status
    && s.st.buffers[tx] == s.pledges[tx].buf
    && s.st.status[tx] == T.TxState(T.Prepared, s.pledges[tx].time)
    && s.pledges[tx].time <= s.st.ts
    && L.Held(s.st.locks, tx) == (map k | k in s.pledges[tx].buf.writes :: L.LockWrite)
    && Stands(s.log, s.pledges[tx])
  }

  /** Each pending write remembers the latest version at the time it was buffered. */
  ghost predicate Remembers(s: Site, tx: TxId)
    requires tx in s.st.buffers
  {
    forall k <- s.st.buffers[tx].writes ::
      && k in MarksOf(s, tx) && MarksOf(s, tx)[k] <= |s.log|
      && s.st.buffers[tx].writes[k].originalVersion == VersionAt(s.log, MarksOf(s, tx)[k], k)
  }

  /** One transaction: it holds locks only while promised, and its buffer is in order. */
  ghost predicate Settled(s: Site, tx: TxId) {
    && (L.Held(s.st.locks, tx) != map[] ==> IsPrepared(s, tx))
    && (IsPrepared(s, tx) ==> Promised(s, tx))
    && (tx in s.st.buffers ==> B.Sound(s.st.buffers[tx]) && Remembers(s, tx))
  }

  /** The store is the log, replayed; the clock is past every commit in it. */
  ghost predicate Grounded(s: Site) {
    && SoundLog(s.log) && AllStood(s.log)
    && S.WellFormed(s.st.data) && s.st.data == Replay(s.log)
    && (forall i :: 0 <= i < |s.log| ==> s.log[i].at < s.st.ts)
  }

  ghost predicate Inv(s: Site) {
    && Grounded(s)
    && L.Agree(s.st.locks)
    && (forall tx :: Settled(s, tx))
  }
}
