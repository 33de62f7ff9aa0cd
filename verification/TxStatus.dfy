/** The status a shard keeps for each transaction it was asked to prepare. */
module TxStatus {
  import opened Basics

  datatype Status = Running | Prepared | Committed | Aborted
  datatype TxState = TxState(status: Status, prepareTime: u64)

  type States = map<TxId, TxState>

  /** A transition on a transaction the table knows; others stay unknown. */
  function Mark(states: States, tx: TxId, status: Status): States {
    if tx in states then states[tx := states[tx].(status := status)] else states
  }

  class TxStatusTable {
    var states: States

    constructor ()
      ensures states == map[]
    {
      states := map[];
    }

    method Start(tx: TxId)
      modifies this
      ensures states == old(states)[tx := TxState(Running, 0)]
    {
      states := states[tx := TxState(Running, 0)];
    }

    method Prepare(tx: TxId, prepareTime: u64)
      modifies this
      ensures states == if tx in old(states) then old(states)[tx := TxState(Prepared, prepareTime)] else old(states)
    {
      if tx in states {
        states := states[tx := TxState(Prepared, prepareTime)];
      }
    }

    method Commit(tx: TxId)
      modifies this
      ensures states == Mark(old(states), tx, Committed)
    {
      if tx in states {
        states := states[tx := TxState(Committed, states[tx].prepareTime)];
      }
    }

    method Abort(tx: TxId)
      modifies this
      ensures states == Mark(old(states), tx, Aborted)
    {
      if tx in states {
        states := states[tx := TxState(Aborted, states[tx].prepareTime)];
      }
    }
  }
}
