/** What the order of applied commits says about isolation: lost updates, and when
    serializable transactions really are serial. */
module Isolation {
  import opened Basics
  import S = Store
  import B = Buffer
  import opened Shard
  import opened Site
  import opened SiteInvariant

  // ---------------------------------------------------------------- lost updates

  predicate Checked(p: Pledge) {
    p.iso == SI || p.iso == SER
  }

  /** Two prefixes that show the same nonzero version of a key have no write of it between them. */
  lemma SameVersionNoWriter(log: seq<Applied>, m: nat, n: nat, k: Key)
    requires AllStood(log) && m <= n <= |log|
    requires VersionAt(log, m, k) == VersionAt(log, n, k) != 0
    ensures NoWriter(log, m, n, k)
  {
    var i := LastWriter(log[..m], k);
    var j := LastWriter(log[..n], k);
    if i < j {
      WritersIncrease(log, i, j, k);
    }
    forall l | m <= l < n ensures !Writes(log[l], k) {
      assert log[..n][l] == log[l];
    }
  }

  /** An SI or SER transaction that commits a write which saw a nonzero version loses
      no update: nobody else committed the key since that write was buffered. */
  lemma NoLostUpdate(log: seq<Applied>, j: nat, k: Key)
    requires AllStood(log) && j < |log|
    requires var p := log[j].pledge; Checked(p) && k in p.buf.writes && p.buf.writes[k].originalVersion != 0
    ensures k in log[j].pledge.marks && NoWriter(log, log[j].pledge.marks[k], j, k)
  {
    var p := log[j].pledge;
    assert Stands(log[..j], p);
    assert log[..j][..p.marks[k]] == log[..p.marks[k]] && log[..j][..p.window] == log[..p.window];
    SameVersionNoWriter(log, p.marks[k], p.window, k);
    forall i | p.marks[k] <= i < j ensures !Writes(log[i], k) {
      assert log[..j][i] == log[i];
    }
  }

  lemma VisibleIsPositive(log: seq<Applied>, n: nat, k: Key)
    requires AllStood(log) && n <= |log|
    ensures S.Latest(History(log[..n], k)).Some? <==> VersionAt(log, n, k) != 0
  {
    if S.Latest(History(log[..n], k)).Some? {
      var i := LastWriter(log[..n], k);
      assert Stands(log[..i], log[i].pledge) && log[i].pledge.time <= log[i].at;
    }
  }

  /** The newest entry of a written key is its last writer's, tombstone or not. */
  lemma {:induction false} NewestEntry(log: seq<Applied>, from: nat, k: Key) returns (i: nat)
    requires !NoWriter(log, from, |log|, k)
    ensures from <= i < |log| && Writes(log[i], k) && NoWriter(log, i + 1, |log|, k)
    ensures var vs := History(log, k);
            vs != [] && vs[|vs| - 1] == Entry(log[i].pledge.buf.writes[k], log[i].at, log[i].tx)
  {
    var n := |log| - 1;
    if Writes(log[n], k) {
      i := n;
    } else {
      assert forall l :: 0 <= l < n ==> log[..n][l] == log[l];
      i := NewestEntry(log[..n], from, k);
    }
  }

  ghost predicate NoDelete(log: seq<Applied>, from: int, to: int, k: Key) {
    forall i :: 0 <= i < |log| && from <= i < to && Writes(log[i], k) ==> !log[i].pledge.buf.writes[k].deleted
  }

  /** In general an SI or SER transaction can only lose an update to a delete: nobody
      else committed the key since its write was buffered if and only if nobody
      committed a delete of it. */
  lemma LostUpdateIff(log: seq<Applied>, j: nat, k: Key)
    requires AllStood(log) && j < |log| && Checked(log[j].pledge) && k in log[j].pledge.buf.writes
    ensures k in log[j].pledge.marks
    ensures var m := log[j].pledge.marks[k]; NoWriter(log, m, j, k) <==> NoDelete(log, m, j, k)
  {
    var p := log[j].pledge;
    assert Stands(log[..j], p);
    var m := p.marks[k];
    assert log[..j][..p.window] == log[..p.window];
    if p.buf.writes[k].originalVersion != 0 {
      NoLostUpdate(log, j, k);
    } else if l :| m <= l < j && Writes(log[l], k) {
      assert log[..j][l] == log[l];
      var i := HiddenByDelete(log, p.window, m, l, k);
      assert !NoDelete(log, m, j, k);
    }
  }

  /** A key that was written and shows no version was last deleted. */
  lemma HiddenByDelete(log: seq<Applied>, n: nat, from: nat, l: nat, k: Key) returns (i: nat)
    requires AllStood(log) && from <= l < n <= |log| && Writes(log[l], k) && VersionAt(log, n, k) == 0
    ensures from <= i < n && Writes(log[i], k) && log[i].pledge.buf.writes[k].deleted
  {
    assert Writes(log[..n][l], k);
    i := NewestEntry(log[..n], from, k);
    VisibleIsPositive(log, n, k);
  }

  /** The version a write saw belongs to the last earlier commit of the key. */
  lemma SeenWriter(log: seq<Applied>, j: nat, k: Key) returns (w: nat)
    requires AllStood(log) && j < |log| && k in log[j].pledge.buf.writes
    requires log[j].pledge.buf.writes[k].originalVersion != 0
    ensures k in log[j].pledge.marks && w < log[j].pledge.marks[k] <= j
    ensures Writes(log[w], k) && log[w].at == log[j].pledge.buf.writes[k].originalVersion
    ensures NoWriter(log, w + 1, log[j].pledge.marks[k], k)
  {
    assert Stands(log[..j], log[j].pledge);
    var m := log[j].pledge.marks[k];
    assert log[..j][..m] == log[..m];
    w := LastWriter(log[..m], k);
    forall l | w + 1 <= l < m ensures !Writes(log[l], k) {
      assert log[..m][l] == log[l];
    }
  }

  /** Of the transactions that saw one nonzero version of a key, at most one commits. */
  lemma OneCommitPerVersion(log: seq<Applied>, i: nat, j: nat, k: Key)
    requires AllStood(log) && i < j < |log|
    requires Writes(log[i], k) && Writes(log[j], k) && Checked(log[j].pledge)
    requires log[j].pledge.buf.writes[k].originalVersion != 0
    ensures log[i].pledge.buf.writes[k].originalVersion != log[j].pledge.buf.writes[k].originalVersion
  {
    SawNoLess(log, i, j, k);
    if log[i].pledge.buf.writes[k].originalVersion != 0 {
      SawLess(log, i, k);
    }
  }

  /** A commit saw a version older than its own, */
  lemma SawLess(log: seq<Applied>, i: nat, k: Key)
    requires AllStood(log) && i < |log| && Writes(log[i], k) && log[i].pledge.buf.writes[k].originalVersion != 0
    ensures log[i].pledge.buf.writes[k].originalVersion < log[i].at
  {
    var w := SeenWriter(log, i, k);
    WritersIncrease(log, w, i, k);
  }

  /** and an SI or SER commit one no older than any earlier commit's. */
  lemma SawNoLess(log: seq<Applied>, i: nat, j: nat, k: Key)
    requires AllStood(log) && i < j < |log| && Writes(log[i], k) && Writes(log[j], k) && Checked(log[j].pledge)
    requires log[j].pledge.buf.writes[k].originalVersion != 0
    ensures log[i].at <= log[j].pledge.buf.writes[k].originalVersion
  {
    NoLostUpdate(log, j, k);
    var w := SeenWriter(log, j, k);
    assert i <= w;
    if i < w {
      WritersIncrease(log, i, w, k);
    }
  }

  // ---------------------------------------------------------------- the serial machine

  datatype Cell = Cell(value: Text, version: u64)

  /** One transaction as a single atomic update of the map of visible values. */
  function Step(m: map<Key, Cell>, e: Applied): map<Key, Cell> {
    var writes := e.pledge.buf.writes;
    map k | k in m.Keys + writes.Keys && !(k in writes && writes[k].deleted) ::
      if k in writes then Cell(writes[k].value, e.at) else m[k]
  }

  ghost function Serial(log: seq<Applied>): map<Key, Cell> {
    if log == [] then map[] else Step(Serial(log[..|log| - 1]), log[|log| - 1])
  }

  ghost function Visible(vs: S.Versions): Option<Cell> {
    match S.Latest(vs) case None => None case Some(e) => Some(Cell(e.value, e.version))
  }

  function Lookup(m: map<Key, Cell>, k: Key): Option<Cell> {
    if k in m then Some(m[k]) else None
  }

  /** The latest visible values of the multi-version store are those of the serial machine. */
  lemma {:induction false} VisibleIsSerial(log: seq<Applied>, k: Key)
    ensures Visible(History(log, k)) == Lookup(Serial(log), k)
  {
    if log != [] {
      VisibleIsSerial(log[..|log| - 1], k);
    }
  }

  /** A recorded read, served by the serial machine. */
  predicate Served(m: map<Key, Cell>, r: B.ReadRecord) {
    match Lookup(m, r.key)
    case None => !r.found
    case Some(c) => r.found && c.version == r.version
  }

  lemma ServedIsHolds(log: seq<Applied>, n: nat, r: B.ReadRecord)
    requires n <= |log|
    ensures Served(Serial(log[..n]), r) <==> ReadHolds(log, n, r)
  {
    VisibleIsSerial(log[..n], r.key);
  }

  /** Each recorded read of every SER transaction, the last it made of the key, is what the
      serial machine of this shard shows just before its commit. */
  ghost predicate SerialOrder(log: seq<Applied>) {
    forall j, k :: 0 <= j < |log| && log[j].pledge.iso == SER && k in log[j].pledge.buf.readSet ==>
      Served(Serial(log[..j]), log[j].pledge.buf.readSet[k])
  }

  /** The last of these commits to write the key, if any, deletes it. */
  ghost predicate LastDeletes(log: seq<Applied>, from: int, to: int, k: Key) {
    forall i :: 0 <= i < |log| && from <= i < to && Writes(log[i], k) && NoWriter(log, i + 1, to, k) ==>
      log[i].pledge.buf.writes[k].deleted
  }

  /** What these commits do to a recorded read: a version that was found must be left
      alone, a missing key may be written as long as it ends up deleted again. */
  ghost predicate StaysCurrent(log: seq<Applied>, from: int, to: int, r: B.ReadRecord) {
    if r.found then NoWriter(log, from, to, r.key) else LastDeletes(log, from, to, r.key)
  }

  /** A recorded read of an SER transaction, found or missing, is still what the serial
      machine shows at its commit if and only if the commits between its vote and its commit
      leave it current. */
  lemma ReadServedIff(log: seq<Applied>, j: nat, k: Key)
    requires AllStood(log) && j < |log| && log[j].pledge.iso == SER
    requires k in log[j].pledge.buf.readSet
    ensures Served(Serial(log[..j]), log[j].pledge.buf.readSet[k])
            <==> StaysCurrent(log, log[j].pledge.window, j, log[j].pledge.buf.readSet[k])
  {
    var p, r := log[j].pledge, log[j].pledge.buf.readSet[k];
    assert Stands(log[..j], p) && r.key == k;
    assert log[..j][..p.window] == log[..p.window];
    ServedIsHolds(log, j, r);
    assert ReadHolds(log, p.window, r);
    if NoWriter(log, p.window, j, k) {
      UnwrittenStays(log, p.window, j, k);
    } else if r.found {
      VisibleIsPositive(log, p.window, k);
      if ReadHolds(log, j, r) {
        SameVersionNoWriter(log, p.window, j, k);
      }
    } else {
      MissingAgainIff(log, p.window, j, k);
    }
  }

  /** A key that these commits write reads as missing after them if and only if the last
      of them deletes it. */
  lemma MissingAgainIff(log: seq<Applied>, m: nat, n: nat, k: Key)
    requires m <= n <= |log| && !NoWriter(log, m, n, k)
    ensures S.Latest(History(log[..n], k)).None? <==> LastDeletes(log, m, n, k)
  {
    var i := DecidesMissing(log, m, n, k);
    forall x | m <= x < n && Writes(log[x], k) && NoWriter(log, x + 1, n, k) ensures x == i {
    }
  }

  /** The last of these commits to write the key decides whether it reads as missing. */
  lemma DecidesMissing(log: seq<Applied>, m: nat, n: nat, k: Key) returns (i: nat)
    requires m <= n <= |log| && !NoWriter(log, m, n, k)
    ensures m <= i < n && Writes(log[i], k) && NoWriter(log, i + 1, n, k)
    ensures S.Latest(History(log[..n], k)).None? <==> log[i].pledge.buf.writes[k].deleted
  {
    var l :| m <= l < n && Writes(log[l], k);
    assert log[..n][l] == log[l];
    i := NewestEntry(log[..n], m, k);
    assert log[..n][i] == log[i];
    forall x | i < x < n ensures !Writes(log[x], k) {
      assert log[..n][x] == log[x];
    }
  }

  lemma UnwrittenStays(log: seq<Applied>, m: nat, n: nat, k: Key)
    requires m <= n <= |log| && NoWriter(log, m, n, k)
    ensures History(log[..n], k) == History(log[..m], k)
  {
    assert log[..n][..m] == log[..m];
    assert forall i :: 0 <= i < n ==> log[..n][i] == log[i];
    HistoryWithout(log[..n], m, k);
  }

  /** Every recorded read of every SER transaction stays current between its vote and its commit. */
  ghost predicate ReadsStayCurrent(log: seq<Applied>) {
    forall j, k :: 0 <= j < |log| && log[j].pledge.iso == SER && k in log[j].pledge.buf.readSet ==>
      StaysCurrent(log, log[j].pledge.window, j, log[j].pledge.buf.readSet[k])
  }

  /** The commit order of a shard is a serial order for its SER transactions, over the reads
      they recorded, if and only if those stay current between vote and commit. An earlier
      answer to a read of the same key is not covered: module Reread says when it was the same. */
  lemma SerialOrderIff(log: seq<Applied>)
    requires AllStood(log)
    ensures SerialOrder(log) <==> ReadsStayCurrent(log)
  {
    forall j, k | 0 <= j < |log| && log[j].pledge.iso == SER && k in log[j].pledge.buf.readSet
      ensures Served(Serial(log[..j]), log[j].pledge.buf.readSet[k])
              <==> StaysCurrent(log, log[j].pledge.window, j, log[j].pledge.buf.readSet[k])
    {
      ReadServedIff(log, j, k);
    }
  }

  /** The store a shard ends with is the one the serial machine ends with, whatever the reads. */
  lemma StoreEndsSerial(log: seq<Applied>, k: Key)
    requires SoundLog(log) && AllStood(log)
    ensures Visible(S.VersionsOf(Replay(log), k)) == Lookup(Serial(log), k)
  {
    ReplayIsHistory(log, k);
    VisibleIsSerial(log, k);
  }

  /** Vote-to-commit windows that no other commit of the shard falls into. */
  ghost predicate DisjointWindows(log: seq<Applied>) {
    forall j :: 0 <= j < |log| ==> log[j].pledge.window == j
  }

  /** A shard on which the windows are disjoint is a case of it; its commit times then
      increase from each commit to the next. */
  lemma DisjointWindowsAreSerial(log: seq<Applied>)
    requires AllStood(log) && DisjointWindows(log)
    ensures SerialOrder(log)
    ensures forall i, j :: 0 <= i < j < |log| ==> log[i].at < log[j].pledge.time <= log[j].at
  {
    SerialOrderIff(log);
    forall i, j | 0 <= i < j < |log| ensures log[i].at < log[j].pledge.time <= log[j].at {
      assert Stands(log[..j], log[j].pledge);
      assert log[..j][i] == log[i];
    }
  }
}
