/**
 * The two read-only escrow queries, `Object.values(escrowStore).filter(...)`.
 * A JavaScript object lists its (non-index) keys in insertion order, so the
 * store's values are visited in the order the escrows were created.
 */
module Queries {
  import opened Outcomes
  import opened Escrows

  datatype Query =
    | HasRole(role: Role, who: Address)   // `/get-escrows`: `escrow[role] === userAddress`
    | PendingFor(buyer: Address)          // `/get-pending-escrows`

  predicate Matches(q: Query, e: Escrow) {
    match q
    case HasRole(r, who) => e.RoleAddress(r) == Some(who)
    case PendingFor(b) => e.buyer == b && !e.fundsReleased && !e.buyerApproved
  }

  /** The records stored under `ids`, in that order, that match `q`. */
  function Select(ids: seq<EscrowId>, store: map<EscrowId, Escrow>, q: Query): (r: seq<Escrow>)
    ensures |r| <= |ids|
    ensures forall e :: e in r ==> Matches(q, e)
    ensures forall e :: e in r ==> exists i :: 0 <= i < |ids| && ids[i] in store && store[ids[i]] == e
    ensures forall i :: 0 <= i < |ids| && ids[i] in store && Matches(q, store[ids[i]]) ==> store[ids[i]] in r
    decreases |ids|
  {
    if ids == [] then []
    else
      var rest := Select(ids[1..], store, q);
      assert forall i :: 1 <= i < |ids| ==> ids[i] == ids[1..][i - 1];
      if ids[0] in store && Matches(q, store[ids[0]]) then [store[ids[0]]] + rest else rest
  }

  /** Selection keeps the store's order: selecting over two runs of keys is selecting over each in turn. */
  lemma {:induction false} SelectAppend(a: seq<EscrowId>, b: seq<EscrowId>, store: map<EscrowId, Escrow>, q: Query)
    ensures Select(a + b, store, q) == Select(a, store, q) + Select(b, store, q)
    decreases |a|
  {
    if a != [] {
      assert (a + b)[0] == a[0];
      assert (a + b)[1..] == a[1..] + b;
      SelectAppend(a[1..], b, store, q);
    } else {
      assert a + b == b;
    }
  }

  /** A pending escrow is one the caller is buyer of. */
  lemma PendingIsBuyerEscrow(b: Address, e: Escrow)
    requires Matches(PendingFor(b), e)
    ensures Matches(HasRole(Buyer, b), e)
  {
  }
}
