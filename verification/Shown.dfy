/** What a read at a time shows of a list of commits, and when commits added to the list
    leave it as it was. */
module Shown {
  import opened Basics
  import S = Store
  import B = Buffer
  import opened Shard
  import opened Site
  import opened SiteInvariant
  import opened Isolation

  /** The commits timed below a bound, in their order. */
  function Timed(log: seq<Applied>, bound: int): seq<Applied> {
    if log == [] then []
    else
      var e := log[|log| - 1];
      Timed(log[..|log| - 1], bound) + if e.at < bound then [e] else []
  }

  lemma {:induction false} TimedMembers(log: seq<Applied>, bound: int)
    ensures forall e :: e in Timed(log, bound) <==> e in log && e.at < bound
  {
    if log != [] {
      var init, e := log[..|log| - 1], log[|log| - 1];
      TimedMembers(init, bound);
      assert log == init + [e];
    }
  }

  lemma {:induction false} TimedAppend(a: seq<Applied>, b: seq<Applied>, bound: int)
    ensures Timed(a + b, bound) == Timed(a, bound) + Timed(b, bound)
    decreases |b|
  {
    if b == [] {
      assert a + b == a;
    } else {
      TimedAppend(a, b[..|b| - 1], bound);
      assert (a + b)[..|a + b| - 1] == a + b[..|b| - 1];
    }
  }

  lemma {:induction false} TimedAll(log: seq<Applied>, bound: int)
    requires forall i :: 0 <= i < |log| ==> log[i].at < bound
    ensures Timed(log, bound) == log
  {
    if log != [] {
      TimedAll(log[..|log| - 1], bound);
      assert log == log[..|log| - 1] + [log[|log| - 1]];
    }
  }

  lemma {:induction false} TimedNone(log: seq<Applied>, bound: int)
    requires forall i :: 0 <= i < |log| ==> bound <= log[i].at
    ensures Timed(log, bound) == []
  {
    if log != [] {
      TimedNone(log[..|log| - 1], bound);
    }
  }

  lemma {:induction false} HistoryAppend(a: seq<Applied>, b: seq<Applied>, k: Key)
    ensures History(a + b, k) == History(a, k) + History(b, k)
    decreases |b|
  {
    if b == [] {
      assert a + b == a;
    } else {
      HistoryAppend(a, b[..|b| - 1], k);
      assert (a + b)[..|a + b| - 1] == a + b[..|b| - 1];
    }
  }

  lemma {:induction false} TimedHistory(log: seq<Applied>, k: Key, bound: int)
    requires S.Ascending(History(log, k))
    ensures S.Ascending(History(Timed(log, bound), k))
    ensures forall v <- History(Timed(log, bound), k) :: v in History(log, k)
  {
    if log != [] {
      var init, e := log[..|log| - 1], log[|log| - 1];
      var vs, ws := History(init, k), History(Timed(init, bound), k);
      assert History(log, k)[..|vs|] == vs;
      TimedHistory(init, k, bound);
      if e.at < bound {
        HistoryAppend(Timed(init, bound), [e], k);
        OneHistory(e, k);
        assert History(log, k) == vs + History([e], k);
        assert History(Timed(log, bound), k) == ws + History([e], k);
        if Writes(e, k) {
          LastOnTop(vs, ws, Entry(e.pledge.buf.writes[k], e.at, e.tx));
        }
      } else {
        assert Timed(log, bound) == Timed(init, bound);
      }
    }
  }

  lemma OneHistory(e: Applied, k: Key)
    ensures History([e], k) == if Writes(e, k) then [Entry(e.pledge.buf.writes[k], e.at, e.tx)] else []
  {
    assert [e][..0] == [];
  }

  lemma LastOnTop(vs: S.Versions, ws: S.Versions, x: S.VersionedValue)
    requires S.Ascending(vs + [x]) && S.Ascending(ws) && forall v <- ws :: v in vs
    ensures S.Ascending(ws + [x])
  {
    forall i | 0 <= i < |ws| ensures ws[i].version < x.version {
      assert ws[i] in vs;
      var j :| 0 <= j < |vs| && vs[j] == ws[i];
      assert (vs + [x])[j].version < (vs + [x])[|vs|].version;
    }
  }

  // ---------------------------------------------------------------- reads

  /** What a read at a snapshot shows of a version list. */
  ghost function ShownAt(vs: S.Versions, snapshot: u64): Option<Cell> {
    match S.Floor(vs, snapshot)
    case None => None
    case Some(e) => if e.deleted then None else Some(Cell(e.value, e.version))
  }

  /** It is the latest value of the commits timed up to then. */
  lemma {:induction false} ShownIsTimed(log: seq<Applied>, k: Key, snapshot: u64)
    ensures ShownAt(History(log, k), snapshot) == Visible(History(Timed(log, snapshot + 1), k))
  {
    if log != [] {
      var init, e := log[..|log| - 1], log[|log| - 1];
      var vs, ws := History(init, k), History(Timed(init, snapshot + 1), k);
      ShownIsTimed(init, k, snapshot);
      OneHistory(e, k);
      HistoryAppend(Timed(init, snapshot + 1), [e], k);
      assert History(log, k) == vs + History([e], k);
      if e.at <= snapshot {
        assert History(Timed(log, snapshot + 1), k) == ws + History([e], k);
      } else {
        assert Timed(log, snapshot + 1) == Timed(init, snapshot + 1);
      }
      if Writes(e, k) {
        FloorOnTop(vs, Entry(e.pledge.buf.writes[k], e.at, e.tx), snapshot);
      } else {
        assert vs + [] == vs && ws + [] == ws;
      }
    }
  }

  lemma FloorOnTop(vs: S.Versions, x: S.VersionedValue, snapshot: u64)
    ensures S.Floor(vs + [x], snapshot) == if x.version <= snapshot then Some(x) else S.Floor(vs, snapshot)
  {
    assert (vs + [x])[..|vs + [x]| - 1] == vs;
  }

  /** A record agrees with what was shown. */
  predicate Agrees(shown: Option<Cell>, r: B.ReadRecord) {
    match shown case None => !r.found case Some(cell) => r.found && cell.version == r.version
  }

  /** After more commits a record still agrees with what is visible if and only if they
      leave it current; what is visible is then unchanged. */
  lemma LeftCurrentIff(before: seq<Applied>, after: seq<Applied>, r: B.ReadRecord)
    requires S.Ascending(History(before + after, r.key)) && Agrees(Visible(History(before, r.key)), r)
    ensures Agrees(Visible(History(before + after, r.key)), r) <==> StaysCurrent(after, 0, |after|, r)
    ensures Agrees(Visible(History(before + after, r.key)), r) ==>
              Visible(History(before + after, r.key)) == Visible(History(before, r.key))
  {
    HistoryAppend(before, after, r.key);
    assert after[..|after|] == after;
    if NoWriter(after, 0, |after|, r.key) {
      HistoryWithout(after, 0, r.key);
      assert after[..0] == [] && History(before, r.key) + [] == History(before, r.key);
    } else {
      var i := NewestEntry(after, 0, r.key);
      NewerOnTop(History(before, r.key), History(after, r.key));
      MissingAgainIff(after, 0, |after|, r.key);
    }
  }

  lemma HoldsIsAgrees(log: seq<Applied>, n: nat, r: B.ReadRecord)
    requires n <= |log|
    ensures ReadHolds(log, n, r) <==> Agrees(Visible(History(log[..n], r.key)), r)
  {
  }

  lemma ServedIsAgrees(m: map<Key, Cell>, r: B.ReadRecord)
    ensures Served(m, r) <==> Agrees(Lookup(m, r.key), r)
  {
  }

  /** A read that held after `window` commits, all timed below the bound, is what the
      commits timed below the bound show if and only if the later ones leave it current. */
  lemma HeldInTimeIff(log: seq<Applied>, window: nat, bound: int, r: B.ReadRecord)
    requires S.Ascending(History(log, r.key)) && window <= |log| && ReadHolds(log, window, r)
    requires forall i :: 0 <= i < window ==> log[i].at < bound
    ensures var since := Timed(log[window..], bound);
            Agrees(Visible(History(Timed(log, bound), r.key)), r) <==> StaysCurrent(since, 0, |since|, r)
  {
    HoldsIsAgrees(log, window, r);
    assert log == log[..window] + log[window..];
    TimedAppend(log[..window], log[window..], bound);
    TimedAll(log[..window], bound);
    TimedHistory(log, r.key, bound);
    LeftCurrentIff(log[..window], Timed(log[window..], bound), r);
  }

  lemma NewerOnTop(vs: S.Versions, ws: S.Versions)
    requires S.Ascending(vs + ws) && ws != []
    ensures S.Latest(vs + ws) == S.Latest(ws)
    ensures S.Latest(vs).Some? ==> S.Latest(vs).value.version < ws[|ws| - 1].version
  {
    var all := vs + ws;
    assert all[|all| - 1] == ws[|ws| - 1];
    if vs != [] {
      assert all[|vs| - 1] == vs[|vs| - 1];
    }
  }
}
