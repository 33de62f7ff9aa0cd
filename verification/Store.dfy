/** The multi-version store: each key has a list of versions in ascending order,
    written by insertion, read at a snapshot, trimmed by garbage collection. */
module Store {
  import opened Basics

  datatype VersionedValue = VersionedValue(value: Text, version: u64, deleted: bool, txId: TxId)
  datatype StoreError = KeyNotFound | VersionNotFound | VersionConflict

  type Versions = seq<VersionedValue>
  type Data = map<Key, Versions>

  ghost predicate Ascending(vs: Versions) {
    forall i, j :: 0 <= i < j < |vs| ==> vs[i].version < vs[j].version
  }

  ghost predicate WellFormed(data: Data) {
    forall k <- data :: Ascending(data[k])
  }

  function VersionsOf(data: Data, key: Key): Versions {
    if key in data then data[key] else []
  }

  ghost predicate HasVersion(vs: Versions, version: u64) {
    exists i :: 0 <= i < |vs| && vs[i].version == version
  }

  // ---------------------------------------------------------------- the meaning of a list

  /** The abstract content of a list: a partial map from version to entry. */
  ghost function Lookup(vs: Versions, version: int): Option<VersionedValue> {
    if exists i :: 0 <= i < |vs| && vs[i].version == version
    then var i :| 0 <= i < |vs| && vs[i].version == version; Some(vs[i])
    else None
  }

  lemma LookupAt(vs: Versions, i: nat)
    requires Ascending(vs) && i < |vs|
    ensures Lookup(vs, vs[i].version) == Some(vs[i])
  {
    var j :| 0 <= j < |vs| && vs[j].version == vs[i].version && Lookup(vs, vs[i].version) == Some(vs[j]);
    assert i == j;
  }

  lemma LookupInit(vs: Versions, version: int)
    requires Ascending(vs) && vs != []
    ensures Lookup(vs[..|vs| - 1], version) ==
            if version == vs[|vs| - 1].version then None else Lookup(vs, version)
  {
    var init := vs[..|vs| - 1];
    assert forall i :: 0 <= i < |init| ==> init[i] == vs[i];
    if i :| 0 <= i < |init| && init[i].version == version {
      LookupAt(init, i);
      LookupAt(vs, i);
    } else if i :| 0 <= i < |vs| && vs[i].version == version {
      LookupAt(vs, i);
      assert i == |vs| - 1;
    }
  }

  /** Two ascending lists with the same abstract content are the same list. */
  lemma {:induction false} ContentDeterminesList(vs: Versions, ws: Versions)
    requires Ascending(vs) && Ascending(ws)
    requires forall v: int :: Lookup(vs, v) == Lookup(ws, v)
    ensures vs == ws
    decreases |vs|
  {
    if vs != [] {
      NonemptyToo(vs, ws);
    }
    if ws != [] {
      NonemptyToo(ws, vs);
      var last, init, init' := vs[|vs| - 1], vs[..|vs| - 1], ws[..|ws| - 1];
      LastDetermined(vs, ws);
      forall v: int ensures Lookup(init, v) == Lookup(init', v) {
        LookupInit(vs, v);
        LookupInit(ws, v);
      }
      ContentDeterminesList(init, init');
      assert vs == init + [last] && ws == init' + [last];
    }
  }

  lemma NonemptyToo(vs: Versions, ws: Versions)
    requires Ascending(vs) && vs != [] && Lookup(vs, vs[0].version) == Lookup(ws, vs[0].version)
    ensures ws != []
  {
    LookupAt(vs, 0);
  }

  lemma LastDetermined(vs: Versions, ws: Versions)
    requires Ascending(vs) && Ascending(ws) && vs != [] && ws != []
    requires forall v: int :: Lookup(vs, v) == Lookup(ws, v)
    ensures vs[|vs| - 1] == ws[|ws| - 1]
  {
    var last, last' := vs[|vs| - 1], ws[|ws| - 1];
    LookupAt(vs, |vs| - 1);
    LookupAt(ws, |ws| - 1);
    assert Lookup(ws, last.version) == Some(last) && Lookup(vs, last'.version) == Some(last');
  }

  // ---------------------------------------------------------------- writing

  /** Where `version` belongs: everything before is below it, nothing after is. */
  ghost predicate Splits(vs: Versions, version: int, at: int) {
    && 0 <= at <= |vs|
    && (forall i :: 0 <= i < at ==> vs[i].version < version)
    && (forall i :: at <= i < |vs| ==> version <= vs[i].version)
  }

  /** Insertion in order; an entry with the same version is left alone. */
  ghost function Insert(vs: Versions, e: VersionedValue): Versions {
    if vs == [] || e.version < vs[0].version then [e] + vs
    else if e.version == vs[0].version then vs
    else [vs[0]] + Insert(vs[1..], e)
  }

  ghost function PutData(data: Data, key: Key, e: VersionedValue): Data {
    if HasVersion(VersionsOf(data, key), e.version) then data
    else data[key := Insert(VersionsOf(data, key), e)]
  }

  lemma HasVersionAtSplit(vs: Versions, version: u64, at: nat)
    requires Ascending(vs) && Splits(vs, version, at)
    ensures HasVersion(vs, version) <==> at < |vs| && vs[at].version == version
  {
    assert at < |vs| ==> forall i :: at < i < |vs| ==> vs[at].version < vs[i].version;
  }

  lemma {:induction false} InsertNew(vs: Versions, e: VersionedValue, at: nat)
    requires Splits(vs, e.version + 1, at) && Splits(vs, e.version, at)
    ensures Insert(vs, e) == vs[..at] + [e] + vs[at..]
  {
    if at > 0 {
      var tail := vs[1..];
      InsertNew(tail, e, at - 1);
      assert tail[..at - 1] == vs[1..at] && tail[at - 1..] == vs[at..];
      assert vs[..at] == [vs[0]] + vs[1..at];
    } else {
      assert vs[..0] + [e] + vs[0..] == [e] + vs;
    }
  }

  lemma {:induction false} InsertOld(vs: Versions, e: VersionedValue, at: nat)
    requires Ascending(vs) && at < |vs| && vs[at].version == e.version
    ensures Insert(vs, e) == vs
  {
    if at > 0 {
      InsertOld(vs[1..], e, at - 1);
      assert vs == [vs[0]] + vs[1..];
    }
  }

  lemma InsertAtSplit(vs: Versions, e: VersionedValue, at: nat)
    requires Ascending(vs) && Splits(vs, e.version, at)
    ensures Insert(vs, e) == if HasVersion(vs, e.version) then vs else vs[..at] + [e] + vs[at..]
  {
    HasVersionAtSplit(vs, e.version, at);
    if HasVersion(vs, e.version) {
      InsertOld(vs, e, at);
    } else {
      assert Splits(vs, e.version + 1, at);
      InsertNew(vs, e, at);
    }
  }

  lemma SplitsMonotone(vs: Versions, v: int, at: nat, w: int, at': nat)
    requires Splits(vs, v, at) && Splits(vs, w, at') && v <= w
    ensures at <= at'
  {
    if at' < |vs| {
      assert vs[at'].version >= w;
    }
  }

  lemma SplitExists(vs: Versions, version: int) returns (at: nat)
    requires Ascending(vs)
    ensures Splits(vs, version, at)
  {
    at := 0;
    while at < |vs| && vs[at].version < version
      invariant at <= |vs|
      invariant forall i :: 0 <= i < at ==> vs[i].version < version
    {
      at := at + 1;
    }
  }

  lemma InsertKeepsOrder(vs: Versions, e: VersionedValue)
    requires Ascending(vs)
    ensures Ascending(Insert(vs, e))
  {
    var at := SplitExists(vs, e.version);
    InsertAtSplit(vs, e, at);
    if !HasVersion(vs, e.version) {
      HasVersionAtSplit(vs, e.version, at);
      BetweenKeepsOrder(vs, e, at);
    }
  }

  lemma BetweenKeepsOrder(vs: Versions, e: VersionedValue, at: nat)
    requires Ascending(vs) && at <= |vs|
    requires forall i :: 0 <= i < at ==> vs[i].version < e.version
    requires at < |vs| ==> e.version < vs[at].version
    ensures Ascending(vs[..at] + [e] + vs[at..])
  {
    var ws := vs[..at] + [e] + vs[at..];
    assert forall i :: 0 <= i < at ==> ws[i] == vs[i];
    assert ws[at] == e;
    assert forall i :: at < i < |ws| ==> ws[i] == vs[i - 1];
  }

  /** Insertion is the map update at a new version and changes nothing at an old one. */
  lemma InsertRefines(vs: Versions, e: VersionedValue, version: u64)
    requires Ascending(vs)
    ensures HasVersion(vs, e.version) <==> Lookup(vs, e.version).Some?
    ensures Lookup(Insert(vs, e), version) ==
            if version == e.version && Lookup(vs, version).None? then Some(e) else Lookup(vs, version)
  {
    var at := SplitExists(vs, e.version);
    InsertAtSplit(vs, e, at);
    InsertKeepsOrder(vs, e);
    if !HasVersion(vs, e.version) {
      LookupInserted(vs, e, at, version);
    }
  }

  lemma LookupInserted(vs: Versions, e: VersionedValue, at: nat, version: u64)
    requires Ascending(vs) && at <= |vs| && !HasVersion(vs, e.version)
    requires Ascending(vs[..at] + [e] + vs[at..])
    ensures Lookup(vs[..at] + [e] + vs[at..], version) == if version == e.version then Some(e) else Lookup(vs, version)
  {
    var ws := vs[..at] + [e] + vs[at..];
    if version == e.version {
      LookupAt(ws, at);
    } else if i :| 0 <= i < |vs| && vs[i].version == version {
      LookupAt(vs, i);
      LookupAt(ws, if i < at then i else i + 1);
    } else {
      assert forall i :: 0 <= i < |ws| && i != at ==> ws[i] == vs[if i < at then i else i - 1];
      assert Lookup(ws, version).None?;
    }
  }

  /** A version above every stored one is appended. */
  lemma {:induction false} InsertAppends(vs: Versions, e: VersionedValue)
    requires forall w <- vs :: w.version < e.version
    ensures !HasVersion(vs, e.version) && Insert(vs, e) == vs + [e]
  {
    assert forall i :: 0 <= i < |vs| ==> vs[i] in vs;
    if vs != [] {
      assert vs[0] in vs;
      InsertAppends(vs[1..], e);
      assert vs == [vs[0]] + vs[1..];
    }
  }

  /** Writing one key keeps every list ascending. */
  lemma PutKeepsOrder(data: Data, key: Key, e: VersionedValue)
    requires WellFormed(data)
    ensures WellFormed(PutData(data, key, e))
  {
    InsertKeepsOrder(VersionsOf(data, key), e);
  }

  // ---------------------------------------------------------------- reading

  /** The entry with the greatest version at or below `version`. */
  ghost function Floor(vs: Versions, version: u64): Option<VersionedValue> {
    if vs == [] then None
    else if vs[|vs| - 1].version <= version then Some(vs[|vs| - 1])
    else Floor(vs[..|vs| - 1], version)
  }

  /** What a snapshot read returns. */
  ghost function GetAt(vs: Versions, version: u64): Result<VersionedValue, StoreError> {
    if vs == [] then Err(KeyNotFound)
    else if version == MAX_U64 then Err(VersionNotFound)
    else match Floor(vs, version)
      case None => Err(VersionNotFound)
      case Some(e) => if e.deleted then Err(KeyNotFound) else Ok(e)
  }

  /** The newest entry unless it is a tombstone. */
  function Latest(vs: Versions): Option<VersionedValue> {
    if vs == [] || vs[|vs| - 1].deleted then None else Some(vs[|vs| - 1])
  }

  function LatestVersion(vs: Versions): u64 {
    match Latest(vs) case None => 0 case Some(e) => e.version
  }

  lemma {:induction false} FloorAtSplit(vs: Versions, version: u64, at: nat)
    requires Ascending(vs) && Splits(vs, version + 1, at)
    ensures Floor(vs, version) == if at == 0 then None else Some(vs[at - 1])
  {
    if vs != [] && at < |vs| {
      FloorAtSplit(vs[..|vs| - 1], version, at);
    }
  }

  /** The floor is the entry of the greatest version of the map at or below the snapshot. */
  lemma FloorIsGreatest(vs: Versions, version: u64)
    requires Ascending(vs)
    ensures match Floor(vs, version)
            case None => forall v: u64 :: v <= version ==> Lookup(vs, v).None?
            case Some(e) =>
              && e.version <= version && Lookup(vs, e.version) == Some(e)
              && forall v: u64 :: e.version < v <= version ==> Lookup(vs, v).None?
  {
    var at := SplitExists(vs, version + 1);
    FloorAtSplit(vs, version, at);
    if at > 0 {
      LookupAt(vs, at - 1);
    }
  }

  /** A write at `e.version` is invisible to every snapshot below it. */
  lemma WriteLeavesEarlierReads(vs: Versions, e: VersionedValue, snapshot: u64)
    requires Ascending(vs) && snapshot < e.version
    ensures vs != [] ==> GetAt(Insert(vs, e), snapshot) == GetAt(vs, snapshot)
    ensures Floor(Insert(vs, e), snapshot) == Floor(vs, snapshot)
  {
    var at := SplitExists(vs, e.version);
    InsertAtSplit(vs, e, at);
    InsertKeepsOrder(vs, e);
    var low := SplitExists(vs, snapshot + 1);
    SplitsMonotone(vs, snapshot + 1, low, e.version, at);
    FloorAtSplit(vs, snapshot, low);
    if !HasVersion(vs, e.version) {
      var ws := vs[..at] + [e] + vs[at..];
      LowStays(vs, e, at, snapshot + 1, low);
      FloorAtSplit(ws, snapshot, low);
      assert low > 0 ==> ws[low - 1] == vs[low - 1];
    }
  }

  lemma LowStays(vs: Versions, e: VersionedValue, at: nat, version: int, low: nat)
    requires at <= |vs| && low <= at && Splits(vs, version, low) && version <= e.version
    ensures Splits(vs[..at] + [e] + vs[at..], version, low)
  {
    var ws := vs[..at] + [e] + vs[at..];
    forall i | low <= i < |ws| ensures version <= ws[i].version {
      if i < at {
        assert ws[i] == vs[i];
      } else if i > at {
        assert ws[i] == vs[i - 1];
      }
    }
  }

  /** Reading at the last 64-bit version wraps to version 0 and finds nothing; at
      every other version a read is answered by the floor. */
  lemma ReadAtMaxFindsNothing(vs: Versions)
    requires Ascending(vs) && vs != [] && !vs[|vs| - 1].deleted
    ensures GetAt(vs, MAX_U64) == Err(VersionNotFound)
    ensures Floor(vs, MAX_U64) == Some(vs[|vs| - 1])
    ensures forall s: u64 :: s != MAX_U64 <==>
              GetAt(vs, s) == (match Floor(vs, s)
                               case None => Err(VersionNotFound)
                               case Some(e) => if e.deleted then Err(KeyNotFound) else Ok(e))
  {
  }

  // ---------------------------------------------------------------- garbage collection

  /** How many versions of one key a collection drops. */
  ghost predicate Trims(vs: Versions, minVersion: u64, cut: nat) {
    exists at :: Splits(vs, minVersion, at) && cut == if at > 1 then at - 1 else 0
  }

  ghost predicate Trimmed(vs: Versions, minVersion: u64, vs': Versions) {
    exists cut :: 0 <= cut <= |vs| && Trims(vs, minVersion, cut) && vs' == vs[cut..]
  }

  /** One key's list after a collection is a suffix; all keys stay. */
  ghost predicate Collected(data: Data, minVersion: u64, data': Data) {
    data'.Keys == data.Keys && forall k <- data :: Trimmed(data[k], minVersion, data'[k])
  }

  /** The total number of entries over all keys. */
  ghost function Total(data: Data): nat
    decreases |data|
  {
    if data == map[] then 0 else
      var k :| k in data;
      |data[k]| + Total(data - {k})
  }

  lemma {:induction false} TotalRemove(data: Data, key: Key)
    requires key in data
    ensures Total(data) == |data[key]| + Total(data - {key})
    decreases |data|
  {
    var k :| k in data && Total(data) == |data[k]| + Total(data - {k});
    if k != key {
      TotalRemove(data - {k}, key);
      TotalRemove(data - {key}, k);
      assert data - {k} - {key} == data - {key} - {k};
    }
  }

  lemma TotalUpdate(data: Data, key: Key, vs: Versions)
    requires key in data
    ensures Total(data[key := vs]) == Total(data) - |data[key]| + |vs|
  {
    TotalRemove(data, key);
    TotalRemove(data[key := vs], key);
    assert data[key := vs] - {key} == data - {key};
  }

  /** A collection at `minVersion` changes no read at or above it, and no latest read. */
  lemma CollectionKeepsReads(vs: Versions, minVersion: u64, cut: nat, snapshot: u64)
    requires Ascending(vs) && Trims(vs, minVersion, cut) && minVersion <= snapshot
    ensures cut <= |vs| && Ascending(vs[cut..])
    ensures GetAt(vs[cut..], snapshot) == GetAt(vs, snapshot)
    ensures Latest(vs[cut..]) == Latest(vs)
  {
    var at := SplitExists(vs, snapshot + 1);
    var low :| Splits(vs, minVersion, low) && cut == if low > 1 then low - 1 else 0;
    SplitsMonotone(vs, minVersion, low, snapshot + 1, at);
    SplitsSuffix(vs, snapshot + 1, at, cut);
    FloorAtSplit(vs, snapshot, at);
    FloorAtSplit(vs[cut..], snapshot, at - cut);
  }

  lemma SplitsSuffix(vs: Versions, version: int, at: nat, cut: nat)
    requires Ascending(vs) && Splits(vs, version, at) && cut <= at
    ensures Ascending(vs[cut..]) && Splits(vs[cut..], version, at - cut)
  {
  }

  lemma CollectedKeepsReads(data: Data, minVersion: u64, data': Data, key: Key, snapshot: u64)
    requires WellFormed(data) && Collected(data, minVersion, data') && minVersion <= snapshot
    ensures GetAt(VersionsOf(data', key), snapshot) == GetAt(VersionsOf(data, key), snapshot)
    ensures Latest(VersionsOf(data', key)) == Latest(VersionsOf(data, key))
    ensures Ascending(VersionsOf(data', key))
  {
    if key in data {
      var cut :| 0 <= cut <= |data[key]| && Trims(data[key], minVersion, cut) && data'[key] == data[key][cut..];
      CollectionKeepsReads(data[key], minVersion, cut, snapshot);
    }
  }

  /** What a collection drops, exactly: it drops nothing at or above `minVersion`, and of
      what lies below it keeps one entry of each key, the newest. */
  lemma CollectedDropsOld(data: Data, minVersion: u64, data': Data, key: Key)
    requires WellFormed(data) && Collected(data, minVersion, data') && key in data
    ensures key in data'
    ensures forall e :: e in data'[key] <==> e in data[key] && !Outdated(data[key], e, minVersion)
    ensures forall i :: 0 < i < |data'[key]| ==> minVersion <= data'[key][i].version
  {
    var cut :| 0 <= cut <= |data[key]| && Trims(data[key], minVersion, cut) && data'[key] == data[key][cut..];
    var vs, vs' := data[key], data'[key];
    forall e ensures e in vs' <==> e in vs && !Outdated(vs, e, minVersion) {
      if e in vs {
        var i :| 0 <= i < |vs| && vs[i] == e;
        DroppedIff(vs, minVersion, cut, i);
        assert i >= cut ==> vs'[i - cut] == e;
      }
      if e in vs' {
        var j :| 0 <= j < |vs'| && vs'[j] == e;
        DroppedIff(vs, minVersion, cut, cut + j);
      }
    }
  }

  lemma DroppedIff(vs: Versions, minVersion: u64, cut: nat, i: nat)
    requires Ascending(vs) && Trims(vs, minVersion, cut) && i < |vs|
    ensures i < cut <==> Outdated(vs, vs[i], minVersion)
  {
    if i < cut {
      assert vs[i + 1] in vs;
    } else {
      forall f | f in vs ensures !(vs[i].version < f.version < minVersion) {
        var j :| 0 <= j < |vs| && vs[j] == f;
      }
    }
  }

  /** A newer entry of the same key is below the bound as well. */
  ghost predicate Outdated(vs: Versions, e: VersionedValue, minVersion: u64) {
    exists f :: f in vs && e.version < f.version < minVersion
  }

  // ---------------------------------------------------------------- the store object

  class MVCCStore {
    var data: Data

    ghost predicate Valid()
      reads this
    {
      WellFormed(data)
    }

    constructor ()
      ensures Valid() && data == map[]
    {
      data := map[];
    }

    /** Binary search; a method of the store that uses no field. */
    static method FindVersionIndex(versions: Versions, version: u64) returns (at: nat)
      requires Ascending(versions)
      ensures Splits(versions, version, at)
    {
      var left, right := 0, |versions|;
      while left < right
        invariant 0 <= left <= right <= |versions|
        invariant forall i :: 0 <= i < left ==> versions[i].version < version
        invariant forall i :: right <= i < |versions| ==> version <= versions[i].version
      {
        var mid := (left + right) / 2;
        if versions[mid].version < version {
          left := mid + 1;
        } else {
          right := mid;
        }
      }
      at := left;
    }

    method Put(key: Key, value: Text, version: u64, txId: TxId) returns (r: Result<(), StoreError>)
      requires Valid()
      modifies this
      ensures Valid()
      ensures data == PutData(old(data), key, VersionedValue(value, version, false, txId))
      ensures r == if HasVersion(VersionsOf(old(data), key), version) then Err(VersionConflict) else Ok(())
    {
      var versions := if key in data then data[key] else [];
      var idx := FindVersionIndex(versions, version);
      ghost var e := VersionedValue(value, version, false, txId);
      InsertAtSplit(versions, e, idx);
      HasVersionAtSplit(versions, version, idx);
      PutKeepsOrder(data, key, e);
      if idx < |versions| && versions[idx].version == version {
        return Err(VersionConflict);
      }
      var vv := VersionedValue(value, version, false, txId);
      versions := versions[..idx] + [vv] + versions[idx..];
      data := data[key := versions];
      r := Ok(());
    }

    method Delete(key: Key, version: u64, txId: TxId) returns (r: Result<(), StoreError>)
      requires Valid()
      modifies this
      ensures Valid()
      ensures data == PutData(old(data), key, VersionedValue(NO_TEXT, version, true, txId))
      ensures r == if HasVersion(VersionsOf(old(data), key), version) then Err(VersionConflict) else Ok(())
    {
      var versions := if key in data then data[key] else [];
      var idx := FindVersionIndex(versions, version);
      ghost var e := VersionedValue(NO_TEXT, version, true, txId);
      InsertAtSplit(versions, e, idx);
      HasVersionAtSplit(versions, version, idx);
      PutKeepsOrder(data, key, e);
      if idx < |versions| && versions[idx].version == version {
        return Err(VersionConflict);
      }
      var vv := VersionedValue(NO_TEXT, version, true, txId);
      versions := versions[..idx] + [vv] + versions[idx..];
      data := data[key := versions];
      r := Ok(());
    }

    /** A snapshot read; `version + 1` wraps in 64 bits as the source's does. */
    method Get(key: Key, version: u64) returns (r: Result<VersionedValue, StoreError>)
      requires Valid()
      ensures r == GetAt(VersionsOf(data, key), version)
    {
      if key !in data || |data[key]| == 0 {
        return Err(KeyNotFound);
      }
      var versions := data[key];
      var idx := FindVersionIndex(versions, (version + 1) % TWO_64);
      if version != MAX_U64 {
        FloorAtSplit(versions, version, idx);
      }
      if idx == 0 {
        return Err(VersionNotFound);
      }
      var vv := versions[idx - 1];
      r := if vv.deleted then Err(KeyNotFound) else Ok(vv);
    }

    method GetLatest(key: Key) returns (r: Result<VersionedValue, StoreError>)
      ensures r == match Latest(VersionsOf(data, key))
                   case None => Err(KeyNotFound)
                   case Some(e) => Ok(e)
    {
      if key !in data || |data[key]| == 0 {
        return Err(KeyNotFound);
      }
      var latest := data[key][|data[key]| - 1];
      r := if latest.deleted then Err(KeyNotFound) else Ok(latest);
    }

    /** Garbage collection, visiting the keys in any order; `CollectedKeepsReads`
        says what the callers keep. */
    method GC(minVersion: u64) returns (removed: nat)
      requires Valid()
      modifies this
      ensures Valid()
      ensures Collected(old(data), minVersion, data)
      ensures removed == Total(old(data)) - Total(data)
    {
      removed := 0;
      ghost var before := data;
      var todo := data.Keys;
      while todo != {}
        invariant todo <= data.Keys == before.Keys
        invariant forall k <- todo :: data[k] == before[k]
        invariant forall k <- data.Keys - todo :: Trimmed(before[k], minVersion, data[k])
        invariant removed == Total(before) - Total(data)
      {
        var key :| key in todo;
        var versions := data[key];
        var idx := FindVersionIndex(versions, minVersion);
        ghost var cut := if idx > 1 then idx - 1 else 0;
        assert Trims(versions, minVersion, cut);
        if idx > 1 {
          TotalUpdate(data, key, versions[idx - 1..]);
          removed := removed + (idx - 1);
          data := data[key := versions[idx - 1..]];
        }
        assert data[key] == versions[cut..];
        todo := todo - {key};
      }
      forall k | k in data ensures Ascending(data[k]) {
        CollectedKeepsReads(before, minVersion, data, k, minVersion);
      }
    }
  }
}
