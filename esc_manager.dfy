/**
 * The Python escrow ledger: a dictionary from transaction id to an entry
 * holding the amount and whether it is locked or released. Locking writes
 * the entry afresh; releasing flips the status of an entry that exists.
 */
module EscManager {
  import opened Outcomes

  type TxId = string

  /** The `"status"` of an entry: `"locked"` or `"released"`. */
  datatype FundsState = Locked | Released

  /** One `{"amount": ..., "status": ...}` entry. */
  datatype Entry = Entry(amount: int, status: FundsState)

  /** The ledger after `lock_funds(txId, amount)`. */
  function Lock(data: map<TxId, Entry>, txId: TxId, amount: int): (d: map<TxId, Entry>)
    ensures d.Keys == data.Keys + {txId}
    ensures txId in d && d[txId].amount == amount && d[txId].status == Locked
    ensures forall k :: k in data && k != txId ==> d[k] == data[k]
  {
    data[txId := Entry(amount, Locked)]
  }

  /** The ledger after `release_funds(txId)`: unchanged when `txId` has no entry. */
  function Release(data: map<TxId, Entry>, txId: TxId): (d: map<TxId, Entry>)
    ensures d.Keys == data.Keys
    ensures txId in data ==> d[txId].status == Released && d[txId].amount == data[txId].amount
    ensures forall k :: k in data && k != txId ==> d[k] == data[k]
    ensures txId !in data ==> d == data
  {
    if txId in data then data[txId := data[txId].(status := Released)] else data
  }

  /** Releasing twice is releasing once. */
  lemma ReleaseIdempotent(data: map<TxId, Entry>, txId: TxId)
    ensures Release(Release(data, txId), txId) == Release(data, txId)
  {
  }

  /** Locking again overwrites the earlier lock entirely. */
  lemma LockOverwrites(data: map<TxId, Entry>, txId: TxId, a: int, b: int)
    ensures Lock(Lock(data, txId, a), txId, b) == Lock(data, txId, b)
  {
  }

  /** Locking a released entry makes it locked again, with the new amount. */
  lemma LockAfterRelease(data: map<TxId, Entry>, txId: TxId, amount: int)
    ensures Lock(Release(data, txId), txId, amount) == Lock(data, txId, amount)
  {
  }

  /** Operations on different transaction ids do not interfere. */
  lemma LockReleaseCommute(data: map<TxId, Entry>, t: TxId, u: TxId, amount: int)
    requires t != u
    ensures Release(Lock(data, t, amount), u) == Lock(Release(data, u), t, amount)
  {
  }

  /** The ledger object, updated in place. */
  class Escrow {
    /** `self.escrow_data`. */
    var escrowData: map<TxId, Entry>

    /** `Escrow()`: an empty ledger. */
    constructor ()
      ensures escrowData == map[]
    {
      escrowData := map[];
    }

    /** `lock_funds`: always succeeds; an existing entry for `txId` is replaced. */
    method LockFunds(txId: TxId, amount: int) returns (ok: bool)
      modifies this
      ensures ok
      ensures escrowData == Lock(old(escrowData), txId, amount)
    {
      escrowData := escrowData[txId := Entry(amount, Locked)];
      ok := true;
    }

    /** `release_funds`: succeeds exactly when `txId` has an entry, and then marks it released. */
    method ReleaseFunds(txId: TxId) returns (ok: bool)
      modifies this
      ensures ok <==> txId in old(escrowData)
      ensures escrowData == Release(old(escrowData), txId)
    {
      if txId in escrowData {
        escrowData := escrowData[txId := escrowData[txId].(status := Released)];
        return true;
      }
      return false;
    }

    /** `get_status`: the entry for `txId`, or None. */
    function GetStatus(txId: TxId): (r: Option<Entry>)
      reads this
      ensures r.Some? <==> txId in escrowData
      ensures r.Some? ==> r.value == escrowData[txId]
    {
      if txId in escrowData then Some(escrowData[txId]) else None
    }
  }

  /** The module's own demonstration: lock 1500 under "0xabc123", then release it. */
  method Demo() returns (before: Option<Entry>, after: Option<Entry>)
    ensures before == Some(Entry(1500, Locked))
    ensures after == Some(Entry(1500, Released))
  {
    var escrow := new Escrow();
    var _ := escrow.LockFunds("0xabc123", 1500);
    before := escrow.GetStatus("0xabc123");
    var _ := escrow.ReleaseFunds("0xabc123");
    after := escrow.GetStatus("0xabc123");
  }
}
