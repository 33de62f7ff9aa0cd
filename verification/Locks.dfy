/** Key-level locks kept in two indexes that must agree: who holds each key, and
    which keys each transaction holds. */
module Locks {
  import opened Basics

  datatype LockMode = LockNone | LockRead | LockWrite
  datatype LockError = LockConflict
  datatype LockEntry = LockEntry(mode: LockMode, holders: set<TxId>)

  datatype LockTable = LockTable(locks: map<Key, LockEntry>, txLocks: map<TxId, map<Key, LockMode>>)

  const FREE := LockEntry(LockNone, {})
  const EMPTY := LockTable(map[], map[])

  function EntryOf(t: LockTable, key: Key): LockEntry {
    if key in t.locks then t.locks[key] else FREE
  }

  /** The transaction index: which keys a transaction holds, and how. */
  function Held(t: LockTable, tx: TxId): map<Key, LockMode> {
    if tx in t.txLocks then t.txLocks[tx] else map[]
  }

  /** The two indexes agree on a key; a write lock has exactly one holder, a free key none. */
  ghost predicate KeyAgrees(t: LockTable, k: Key) {
    var e := EntryOf(t, k);
    && (forall tx :: k in Held(t, tx) <==> tx in e.holders)
    && (forall tx :: k in Held(t, tx) ==> Held(t, tx)[k] == e.mode)
    && (e.mode == LockNone <==> e.holders == {})
    && (e.mode == LockWrite ==> exists tx :: e.holders == {tx})
  }

  ghost predicate Agree(t: LockTable) {
    forall k :: KeyAgrees(t, k)
  }

  // ---------------------------------------------------------------- what the code computes

  function Ensure(t: LockTable, key: Key): LockTable {
    if key in t.locks then t else t.(locks := t.locks[key := FREE])
  }

  function IsHolding(t: LockTable, tx: TxId, key: Key, mode: LockMode): bool {
    key in Held(t, tx) && (Held(t, tx)[key] == mode || (mode == LockRead && Held(t, tx)[key] == LockWrite))
  }

  function Record(t: LockTable, tx: TxId, key: Key, entry: LockEntry, mode: LockMode): LockTable {
    LockTable(t.locks[key := entry], t.txLocks[tx := Held(t, tx)[key := mode]])
  }

  function AcquireRead(t: LockTable, tx: TxId, key: Key): (LockTable, bool) {
    var t, e := Ensure(t, key), EntryOf(t, key);
    if IsHolding(t, tx, key, LockRead) || IsHolding(t, tx, key, LockWrite) then (t, true)
    else if e.mode == LockNone || e.mode == LockRead then
      (Record(t, tx, key, LockEntry(LockRead, e.holders + {tx}), LockRead), true)
    else (t, tx in e.holders)
  }

  function AcquireWrite(t: LockTable, tx: TxId, key: Key): (LockTable, bool) {
    var t, e := Ensure(t, key), EntryOf(t, key);
    if IsHolding(t, tx, key, LockWrite) then (t, true)
    else if e.mode == LockNone then
      (Record(t, tx, key, LockEntry(LockWrite, e.holders + {tx}), LockWrite), true)
    else if e.mode == LockRead then
      if |e.holders| == 1 && tx in e.holders
      then (Record(t, tx, key, LockEntry(LockWrite, e.holders), LockWrite), true)
      else (t, false)
    else (t, tx in e.holders)
  }

  function Without(e: LockEntry, tx: TxId): LockEntry {
    var holders := e.holders - {tx};
    LockEntry(if holders == {} then LockNone else e.mode, holders)
  }

  function Release(t: LockTable, tx: TxId): LockTable {
    if tx !in t.txLocks then t
    else LockTable(map k | k in t.locks :: if k in t.txLocks[tx] then Without(t.locks[k], tx) else t.locks[k],
                   t.txLocks - {tx})
  }

  function ReleaseKey(t: LockTable, tx: TxId, key: Key): LockTable {
    if key !in t.locks then t
    else LockTable(t.locks[key := Without(t.locks[key], tx)],
                   if tx in t.txLocks then t.txLocks[tx := t.txLocks[tx] - {key}] else t.txLocks)
  }

  // ---------------------------------------------------------------- the laws

  lemma SoleHolder(s: set<TxId>, tx: TxId)
    requires tx in s
    ensures |s| == 1 <==> s == {tx}
  {
    assert s == {tx} + (s - {tx});
    if |s| == 1 {
      assert |s - {tx}| == 0;
    }
  }

  lemma EmptyLaw()
    ensures Agree(EMPTY)
    ensures forall tx, k :: FreeFor(EMPTY, tx, k)
  {
    forall k ensures KeyAgrees(EMPTY, k) {
    }
  }

  lemma EnsureLaw(t: LockTable, key: Key)
    requires Agree(t)
    ensures Agree(Ensure(t, key))
    ensures forall k :: EntryOf(Ensure(t, key), k) == EntryOf(t, k)
    ensures forall tx :: Held(Ensure(t, key), tx) == Held(t, tx)
  {
    var t' := Ensure(t, key);
    forall k ensures KeyAgrees(t', k) {
      assert KeyAgrees(t, k) && EntryOf(t', k) == EntryOf(t, k);
      assert forall tx :: Held(t', tx) == Held(t, tx);
    }
  }

  /** A grant that keeps the old holders' mode, or leaves the key to one transaction. */
  lemma GrantLaw(t: LockTable, tx: TxId, key: Key, mode: LockMode)
    requires Agree(t)
    requires mode == LockRead ==> EntryOf(t, key).mode != LockWrite
    requires mode == LockWrite ==> EntryOf(t, key).holders <= {tx}
    requires mode != LockNone
    ensures var t' := Record(t, tx, key, LockEntry(mode, EntryOf(t, key).holders + {tx}), mode);
            && Agree(t')
            && (forall tx' :: Held(t', tx') == if tx' == tx then Held(t, tx)[key := mode] else Held(t, tx'))
  {
    var e := LockEntry(mode, EntryOf(t, key).holders + {tx});
    var t' := Record(t, tx, key, e, mode);
    assert forall tx' :: Held(t', tx') == if tx' == tx then Held(t, tx)[key := mode] else Held(t, tx');
    forall k ensures KeyAgrees(t', k) {
      assert KeyAgrees(t, k);
      if k != key {
        assert EntryOf(t', k) == EntryOf(t, k);
      } else if mode == LockWrite {
        assert EntryOf(t', k).holders == {tx};
      }
    }
  }

  /** No other transaction holds the key in any mode. */
  ghost predicate FreeFor(t: LockTable, tx: TxId, key: Key) {
    forall tx' :: tx' != tx ==> key !in Held(t, tx')
  }

  /** A read lock is granted unless another transaction writes the key; it never
      takes anything from anyone. */
  lemma AcquireReadLaw(t: LockTable, tx: TxId, key: Key)
    requires Agree(t)
    ensures var (t', ok) := AcquireRead(t, tx, key);
            && Agree(t')
            && (ok <==> !exists tx' :: tx' != tx && key in Held(t, tx') && Held(t, tx')[key] == LockWrite)
            && (forall tx' :: Held(t', tx') ==
                 if tx' == tx && ok && key !in Held(t, tx) then Held(t, tx)[key := LockRead] else Held(t, tx'))
  {
    var e := EntryOf(t, key);
    EnsureLaw(t, key);
    assert KeyAgrees(t, key);
    if key in Held(t, tx) {
    } else if e.mode != LockWrite {
      GrantLaw(Ensure(t, key), tx, key, LockRead);
      assert forall tx' :: key in Held(t, tx') ==> Held(t, tx')[key] == e.mode;
    } else {
      var other :| other in e.holders;
      assert key in Held(t, other) && Held(t, other)[key] == LockWrite;
    }
  }

  /** A write lock is granted exactly when no other transaction holds the key. */
  lemma AcquireWriteLaw(t: LockTable, tx: TxId, key: Key)
    requires Agree(t)
    ensures var (t', ok) := AcquireWrite(t, tx, key);
            && Agree(t')
            && (ok <==> FreeFor(t, tx, key))
            && (forall tx' :: Held(t', tx') ==
                 if tx' == tx && ok then Held(t, tx)[key := LockWrite] else Held(t, tx'))
  {
    var e := EntryOf(t, key);
    EnsureLaw(t, key);
    assert KeyAgrees(t, key);
    if e.mode == LockWrite {
      var owner :| e.holders == {owner};
      if owner == tx {
        assert Held(t, tx) == Held(t, tx)[key := LockWrite];
      }
    } else if e.holders <= {tx} {
      assert e.holders == {} || e.holders == {tx} == e.holders + {tx};
      GrantLaw(Ensure(t, key), tx, key, LockWrite);
    } else {
      var other :| other in e.holders && other != tx;
      if tx in e.holders {
        SoleHolder(e.holders, tx);
      }
    }
  }

  /** A release clears one transaction and no other. */
  lemma ReleaseLaw(t: LockTable, tx: TxId)
    requires Agree(t)
    ensures Agree(Release(t, tx))
    ensures forall tx' :: Held(Release(t, tx), tx') == if tx' == tx then map[] else Held(t, tx')
  {
    var t' := Release(t, tx);
    assert forall tx' :: Held(t', tx') == if tx' == tx then map[] else Held(t, tx');
    forall k ensures KeyAgrees(t', k) {
      assert KeyAgrees(t, k);
      assert EntryOf(t', k) == if k in Held(t, tx) then Without(EntryOf(t, k), tx) else EntryOf(t, k);
      if k in Held(t, tx) && EntryOf(t, k).mode == LockWrite {
        assert EntryOf(t', k).holders == {};
      }
    }
  }

  lemma ReleaseKeyLaw(t: LockTable, tx: TxId, key: Key)
    requires Agree(t)
    ensures Agree(ReleaseKey(t, tx, key))
    ensures forall tx' :: Held(ReleaseKey(t, tx, key), tx') == if tx' == tx then Held(t, tx) - {key} else Held(t, tx')
  {
    var t' := ReleaseKey(t, tx, key);
    assert KeyAgrees(t, key);
    assert forall tx' :: Held(t', tx') == if tx' == tx then Held(t, tx) - {key} else Held(t, tx');
    forall k ensures KeyAgrees(t', k) {
      assert KeyAgrees(t, k);
      assert EntryOf(t', k) == if k == key then Without(EntryOf(t, k), tx) else EntryOf(t, k);
      if k == key && EntryOf(t, k).mode == LockWrite && tx in EntryOf(t, k).holders {
        assert EntryOf(t', k).holders == {};
      }
    }
  }

  /** The write locks of a whole prepare, taken in order until one is refused. */
  function AcquireAll(t: LockTable, tx: TxId, keys: seq<Key>): (LockTable, bool)
    decreases |keys|
  {
    if keys == [] then (t, true)
    else
      var (t', ok) := AcquireWrite(t, tx, keys[0]);
      if ok then AcquireAll(t', tx, keys[1..]) else (t', false)
  }

  function WriteLocked(held: map<Key, LockMode>, keys: seq<Key>): map<Key, LockMode> {
    map k | k in held.Keys + (set key | key in keys) :: if k in keys then LockWrite else held[k]
  }

  lemma WriteLockedCons(held: map<Key, LockMode>, keys: seq<Key>)
    requires keys != []
    ensures WriteLocked(held[keys[0] := LockWrite], keys[1..]) == WriteLocked(held, keys)
  {
    assert forall k :: k in keys <==> k == keys[0] || k in keys[1..];
  }

  /** All or nothing up to a release: on success the transaction has exclusive locks
      on exactly the new keys besides its old ones; either way nobody else notices. */
  lemma {:induction false} AcquireAllLaw(t: LockTable, tx: TxId, keys: seq<Key>)
    requires Agree(t)
    ensures var (t', ok) := AcquireAll(t, tx, keys);
            && Agree(t')
            && (ok <==> forall k <- keys :: FreeFor(t, tx, k))
            && (ok ==> Held(t', tx) == WriteLocked(Held(t, tx), keys))
            && (forall tx' :: tx' != tx ==> Held(t', tx') == Held(t, tx'))
    decreases |keys|
  {
    if keys != [] {
      var key, rest := keys[0], keys[1..];
      AcquireWriteLaw(t, tx, key);
      var (t1, ok) := AcquireWrite(t, tx, key);
      assert forall k :: k in keys <==> k == key || k in rest;
      if ok {
        AcquireAllLaw(t1, tx, rest);
        var (t', all) := AcquireAll(t1, tx, rest);
        assert AcquireAll(t, tx, keys) == (t', all);
        WriteLockedCons(Held(t, tx), keys);
        assert all <==> forall k <- keys :: FreeFor(t, tx, k) by {
          assert forall k :: FreeFor(t1, tx, k) <==> FreeFor(t, tx, k);
        }
      } else {
        assert AcquireAll(t, tx, keys) == (t1, false);
      }
    }
  }

  // ---------------------------------------------------------------- runs

  datatype Step = TakeRead(tx: TxId, key: Key) | TakeWrite(tx: TxId, key: Key)
                | Drop(tx: TxId) | DropKey(tx: TxId, key: Key)

  function Run(steps: seq<Step>): LockTable {
    if steps == [] then EMPTY
    else
      var t := Run(steps[..|steps| - 1]);
      match steps[|steps| - 1]
      case TakeRead(tx, key) => AcquireRead(t, tx, key).0
      case TakeWrite(tx, key) => AcquireWrite(t, tx, key).0
      case Drop(tx) => Release(t, tx)
      case DropKey(tx, key) => ReleaseKey(t, tx, key)
  }

  /** The two indexes agree after every sequence of acquires and releases. */
  lemma {:induction false} RunAgrees(steps: seq<Step>)
    ensures Agree(Run(steps))
  {
    if steps == [] {
      EmptyLaw();
    } else {
      var t := Run(steps[..|steps| - 1]);
      RunAgrees(steps[..|steps| - 1]);
      match steps[|steps| - 1] {
        case TakeRead(tx, key) => AcquireReadLaw(t, tx, key);
        case TakeWrite(tx, key) => AcquireWriteLaw(t, tx, key);
        case Drop(tx) => ReleaseLaw(t, tx);
        case DropKey(tx, key) => ReleaseKeyLaw(t, tx, key);
      }
    }
  }

  // ---------------------------------------------------------------- the lock manager object

  class LockManager {
    var locks: map<Key, LockEntry>
    var txLocks: map<TxId, map<Key, LockMode>>

    ghost function Table(): LockTable
      reads this
    {
      LockTable(locks, txLocks)
    }

    constructor ()
      ensures Table() == EMPTY
    {
      locks, txLocks := map[], map[];
    }

    method GetOrCreateEntry(key: Key) returns (entry: LockEntry)
      modifies this`locks
      ensures Table() == Ensure(old(Table()), key)
      ensures entry == EntryOf(old(Table()), key) && key in locks && locks[key] == entry
    {
      if key !in locks {
        locks := locks[key := LockEntry(LockNone, {})];
      }
      entry := locks[key];
    }

    function Holding(tx: TxId, key: Key, mode: LockMode): bool
      reads this
      ensures Holding(tx, key, mode) == IsHolding(Table(), tx, key, mode)
    {
      if tx !in txLocks || key !in txLocks[tx] then false
      else
        var held := txLocks[tx][key];
        held == mode || (mode == LockRead && held == LockWrite)
    }

    method RecordTxLock(tx: TxId, key: Key, mode: LockMode)
      modifies this`txLocks
      ensures txLocks == old(txLocks)[tx := Held(old(Table()), tx)[key := mode]]
    {
      var held := if tx in txLocks then txLocks[tx] else map[];
      txLocks := txLocks[tx := held[key := mode]];
    }

    method AcquireReadLock(tx: TxId, key: Key) returns (r: Result<(), LockError>)
      modifies this
      ensures (Table(), r == Ok(())) == AcquireRead(old(Table()), tx, key)
    {
      var entry := GetOrCreateEntry(key);
      if Holding(tx, key, LockRead) || Holding(tx, key, LockWrite) {
        return Ok(());
      }
      if entry.mode == LockNone || entry.mode == LockRead {
        locks := locks[key := LockEntry(LockRead, entry.holders + {tx})];
        RecordTxLock(tx, key, LockRead);
        return Ok(());
      }
      if tx !in entry.holders {
        return Err(LockConflict);
      }
      r := Ok(());
    }

    method AcquireWriteLock(tx: TxId, key: Key) returns (r: Result<(), LockError>)
      modifies this
      ensures (Table(), r == Ok(())) == AcquireWrite(old(Table()), tx, key)
    {
      var entry := GetOrCreateEntry(key);
      if Holding(tx, key, LockWrite) {
        return Ok(());
      }
      if entry.mode == LockNone {
        locks := locks[key := LockEntry(LockWrite, entry.holders + {tx})];
        RecordTxLock(tx, key, LockWrite);
        return Ok(());
      }
      if entry.mode == LockRead {
        if |entry.holders| == 1 && tx in entry.holders {
          locks := locks[key := LockEntry(LockWrite, entry.holders)];
          RecordTxLock(tx, key, LockWrite);
          return Ok(());
        }
        return Err(LockConflict);
      }
      r := if tx in entry.holders then Ok(()) else Err(LockConflict);
    }

    /** Clears the transaction key by key, in any order. */
    method ReleaseAll(tx: TxId)
      modifies this
      ensures Table() == Release(old(Table()), tx)
    {
      if tx !in txLocks {
        return;
      }
      var todo := txLocks[tx].Keys;
      while todo != {}
        invariant todo <= old(txLocks)[tx].Keys && txLocks == old(txLocks)
        invariant locks.Keys == old(locks).Keys
        invariant forall k <- locks :: locks[k] ==
                    if k in old(txLocks)[tx] && k !in todo then Without(old(locks)[k], tx) else old(locks)[k]
      {
        var key :| key in todo;
        if key in locks {
          var holders := locks[key].holders - {tx};
          locks := locks[key := LockEntry(if |holders| == 0 then LockNone else locks[key].mode, holders)];
        }
        todo := todo - {key};
      }
      txLocks := txLocks - {tx};
    }

    method ReleaseOne(tx: TxId, key: Key)
      modifies this
      ensures Table() == ReleaseKey(old(Table()), tx, key)
    {
      if key !in locks {
        return;
      }
      var holders := locks[key].holders - {tx};
      locks := locks[key := LockEntry(if |holders| == 0 then LockNone else locks[key].mode, holders)];
      if tx in txLocks {
        txLocks := txLocks[tx := txLocks[tx] - {key}];
      }
    }
  }
}
