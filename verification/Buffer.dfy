/** Transaction buffers: pending writes in insertion order and the external reads. */
module Buffer {
  import opened Basics

  datatype WriteOp = WriteOp(key: Key, value: Text, deleted: bool, originalVersion: u64)
  datatype ReadRecord = ReadRecord(key: Key, version: u64, found: bool)

  /** The content of one buffer. */
  datatype Buf = Buf(writes: map<Key, WriteOp>, order: seq<Key>, readSet: map<Key, ReadRecord>)

  const EMPTY := Buf(map[], [], map[])

  predicate Distinct<T(==)>(s: seq<T>) {
    forall i, j :: 0 <= i < j < |s| ==> s[i] != s[j]
  }

  /** The insertion order lists each written key once; records carry their own key. */
  ghost predicate Sound(b: Buf) {
    && Distinct(b.order)
    && (forall k :: k in b.order <==> k in b.writes)
    && (forall k <- b.writes :: b.writes[k].key == k)
    && (forall k <- b.readSet :: b.readSet[k].key == k)
  }

  /** Adds or replaces the pending write of a key; a key keeps its first position. */
  function PutOp(b: Buf, op: WriteOp): Buf {
    b.(writes := b.writes[op.key := op], order := if op.key in b.writes then b.order else b.order + [op.key])
  }

  function RecordRead(b: Buf, r: ReadRecord): Buf {
    if r.key in b.writes then b else b.(readSet := b.readSet[r.key := r])
  }

  /** The pending writes in insertion order. */
  function Ops(b: Buf): (ops: seq<WriteOp>)
    ensures Sound(b) ==> |ops| == |b.order| && forall i :: 0 <= i < |ops| ==>
              b.order[i] in b.writes && ops[i] == b.writes[b.order[i]] && ops[i].key == b.order[i]
  {
    assert forall i :: 0 <= i < |b.order| ==> b.order[i] in b.order;
    Gather(b.writes, b.order)
  }

  function Gather(writes: map<Key, WriteOp>, order: seq<Key>): (ops: seq<WriteOp>)
    ensures (forall i :: 0 <= i < |order| ==> order[i] in writes) ==>
              |ops| == |order| && forall i :: 0 <= i < |ops| ==> ops[i] == writes[order[i]]
  {
    if order == [] then []
    else
      var key := order[|order| - 1];
      Gather(writes, order[..|order| - 1]) + if key in writes then [writes[key]] else []
  }

  lemma PutOpSound(b: Buf, op: WriteOp)
    requires Sound(b)
    ensures Sound(PutOp(b, op))
  {
    var b' := PutOp(b, op);
    forall k ensures k in b'.order <==> k in b'.writes {
      assert k in b.order + [op.key] <==> k in b.order || k == op.key;
    }
  }

  lemma RecordReadSound(b: Buf, r: ReadRecord)
    requires Sound(b)
    ensures Sound(RecordRead(b, r))
  {
  }

  /** A put changes the pending operation of one key, keeps the order of the keys, with a
      new one at the end, and leaves the records alone. */
  lemma PutOpLaw(b: Buf, op: WriteOp)
    requires Sound(b)
    ensures var b' := PutOp(b, op);
            && (forall k :: k in b'.writes <==> k == op.key || k in b.writes)
            && (forall k <- b'.writes :: b'.writes[k] == if k == op.key then op else b.writes[k])
            && b.order <= b'.order <= b.order + [op.key] && op.key in b'.order && b'.readSet == b.readSet
  {
    assert op.key in b.order + [op.key];
  }

  /** A read of a key the transaction has not written replaces the record of that key; any
      other leaves no trace. */
  lemma RecordReadLaw(b: Buf, r: ReadRecord)
    ensures var b' := RecordRead(b, r);
            && b'.writes == b.writes && b'.order == b.order
            && (forall k :: k in b'.readSet <==> k in b.readSet || (k == r.key && r.key !in b.writes))
            && (forall k <- b'.readSet :: b'.readSet[k] == if k == r.key && k !in b.writes then r else b.readSet[k])
  {
  }

  class TxBuffer {
    const txId: TxId
    var writes: map<Key, WriteOp>
    var writeOrder: seq<Key>
    var readSet: map<Key, ReadRecord>

    ghost function View(): Buf
      reads this
    {
      Buf(writes, writeOrder, readSet)
    }

    constructor (txId: TxId)
      ensures View() == EMPTY && this.txId == txId
    {
      this.txId := txId;
      writes, writeOrder, readSet := map[], [], map[];
    }

    method PutWrite(key: Key, value: Text, originalVersion: u64)
      modifies this
      ensures View() == PutOp(old(View()), WriteOp(key, value, false, originalVersion))
    {
      if key !in writes {
        writeOrder := writeOrder + [key];
      }
      writes := writes[key := WriteOp(key, value, false, originalVersion)];
    }

    method PutDelete(key: Key, originalVersion: u64)
      modifies this
      ensures View() == PutOp(old(View()), WriteOp(key, NO_TEXT, true, originalVersion))
    {
      if key !in writes {
        writeOrder := writeOrder + [key];
      }
      writes := writes[key := WriteOp(key, NO_TEXT, true, originalVersion)];
    }

    /** Reads of the transaction's own writes are not tracked. */
    method RecordExternalRead(key: Key, version: u64, found: bool)
      modifies this
      ensures View() == RecordRead(old(View()), ReadRecord(key, version, found))
    {
      if key !in writes {
        readSet := readSet[key := ReadRecord(key, version, found)];
      }
    }

    method WriteOps() returns (ops: seq<WriteOp>)
      requires Sound(View())
      ensures ops == Ops(View())
    {
      ops := [];
      for i := 0 to |writeOrder|
        invariant ops == Ops(View())[..i]
      {
        assert writeOrder[i] in writeOrder;
        ops := ops + [writes[writeOrder[i]]];
      }
    }

    /** The read records in whatever order the map yields them. */
    method ReadRecords() returns (records: seq<ReadRecord>)
      ensures |records| == |readSet|
      ensures forall r :: r in records <==> r in readSet.Values
    {
      records := [];
      var todo := readSet.Keys;
      while todo != {}
        invariant todo <= readSet.Keys
        invariant |records| == |readSet.Keys - todo|
        invariant forall r :: r in records <==> exists k <- readSet.Keys - todo :: readSet[k] == r
      {
        var k :| k in todo;
        records := records + [readSet[k]];
        todo := todo - {k};
        assert readSet.Keys - todo == (readSet.Keys - todo - {k}) + {k};
      }
    }
  }

  /** The buffers of all live transactions; no buffer serves two of them. `Contents`
      is what the buffers hold. */
  class TxBufferManager {
    var buffers: map<TxId, TxBuffer>
    ghost var Contents: map<TxId, Buf>

    ghost predicate Valid()
      reads this, buffers.Values
    {
      && Contents.Keys == buffers.Keys
      && forall t <- buffers ::
           var b := buffers[t];
           b.txId == t && Contents[t] == Buf(b.writes, b.writeOrder, b.readSet)
    }

    constructor ()
      ensures Valid() && buffers == map[] && Contents == map[]
    {
      buffers := map[];
      Contents := map[];
    }

    method Start(tx: TxId) returns (buf: TxBuffer)
      requires Valid()
      modifies this
      ensures Valid() && fresh(buf) && buffers == old(buffers)[tx := buf]
      ensures Contents == old(Contents)[tx := EMPTY]
    {
      buf := new TxBuffer(tx);
      buffers := buffers[tx := buf];
      Contents := Contents[tx := EMPTY];
    }

    method Get(tx: TxId) returns (r: Option<TxBuffer>)
      ensures r == if tx in buffers then Some(buffers[tx]) else None
    {
      r := if tx in buffers then Some(buffers[tx]) else None;
    }

    /** A write, a delete or a read record through the pointer `Get` hands out. */
    method Put(tx: TxId, buf: TxBuffer, op: WriteOp)
      requires Valid() && tx in buffers && buffers[tx] == buf
      requires op.deleted ==> op.value == NO_TEXT
      modifies this`Contents, buf
      ensures Valid() && Contents == old(Contents)[tx := PutOp(old(Contents)[tx], op)]
    {
      if op.deleted {
        buf.PutDelete(op.key, op.originalVersion);
      } else {
        buf.PutWrite(op.key, op.value, op.originalVersion);
      }
      Contents := Contents[tx := buf.View()];
    }

    method NoteRead(tx: TxId, buf: TxBuffer, r: ReadRecord)
      requires Valid() && tx in buffers && buffers[tx] == buf
      modifies this`Contents, buf
      ensures Valid() && Contents == old(Contents)[tx := RecordRead(old(Contents)[tx], r)]
    {
      buf.RecordExternalRead(r.key, r.version, r.found);
      Contents := Contents[tx := buf.View()];
    }

    method Remove(tx: TxId)
      requires Valid()
      modifies this
      ensures Valid() && buffers == old(buffers) - {tx}
      ensures Contents == old(Contents) - {tx}
    {
      buffers := buffers - {tx};
      Contents := Contents - {tx};
    }
  }
}
