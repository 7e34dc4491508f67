/**
 * The backend's escrow service: the wallet-session store, the escrow store and
 * the request handlers over them. Each request is taken as atomic; the wallet
 * SDK is reduced to the address its `state()` reports, so a session maps to an
 * address. The fresh escrow id, time stamps and simulated hashes are passed in.
 */
module Server {
  import opened Outcomes
  import opened Escrows
  import Queries
  import Lifecycle

  /** The payload of a successful `/create-escrow`. */
  datatype Created = Created(escrowId: EscrowId, contractAddress: Hash, transactionHash: Hash)

  /** The payload of a successful approve, release, dispute, resolve or cancel. */
  datatype Receipt = Receipt(escrowId: EscrowId, transactionHash: Hash)

  /** `!walletId || !walletStore[walletId]` is false. */
  predicate SessionValid(wallets: map<SessionId, Address>, walletId: SessionId) {
    walletId != "" && walletId in wallets
  }

  /** `!escrowId || !escrowStore[escrowId]` is false. */
  predicate Found(escrows: map<EscrowId, Escrow>, escrowId: EscrowId) {
    escrowId != "" && escrowId in escrows
  }

  /** The escrow store after a transition on record `id`: replaced when accepted, untouched when rejected. */
  function Commit(escrows: map<EscrowId, Escrow>, id: EscrowId, t: Result<Escrow, Error>): (s: map<EscrowId, Escrow>)
    requires id in escrows
    ensures s.Keys == escrows.Keys
    ensures forall k :: k in escrows && k != id ==> s[k] == escrows[k]
    ensures t.Success? ==> s[id] == t.value
    ensures t.Failure? ==> s == escrows
  {
    if t.Success? then escrows[id := t.value] else escrows
  }

  /** The response to a transition on record `id`. */
  function Reply(id: EscrowId, t: Result<Escrow, Error>, transactionHash: Hash): (r: Result<Receipt, Error>)
    ensures r.Success? <==> t.Success?
    ensures r.Success? ==> r.value == Receipt(id, transactionHash)
    ensures r.Failure? ==> r.error == t.error
  {
    if t.Success? then Success(Receipt(id, transactionHash)) else Failure(t.error)
  }

  /** Every record of `s2` that was in `s1` has only moved forward. */
  predicate StoreEvolves(s1: map<EscrowId, Escrow>, s2: map<EscrowId, Escrow>) {
    forall id :: id in s1 ==> id in s2 && Evolves(s1[id], s2[id])
  }

  /** A store that is left as it is has moved forward trivially. */
  lemma StoreEvolvesReflexive(s: map<EscrowId, Escrow>)
    ensures StoreEvolves(s, s)
  {
    forall id | id in s
      ensures Evolves(s[id], s[id])
    {
      EvolvesReflexive(s[id]);
    }
  }

  /** The escrow store's invariant: `order` lists its keys once each, and every record is consistent. */
  ghost predicate StoreValid(order: seq<EscrowId>, escrows: map<EscrowId, Escrow>) {
    && (forall i, j :: 0 <= i < j < |order| ==> order[i] != order[j])
    && (forall id :: id in escrows <==> id in order)
    && (forall id :: id in escrows ==> escrows[id].id == id && Inv(escrows[id]))
  }

  /**
   * Committing an accepted transition to one record keeps the store invariant
   * and moves every record of the store forward.
   */
  lemma CommitKeepsValid(order: seq<EscrowId>, escrows: map<EscrowId, Escrow>, id: EscrowId,
                         a: Lifecycle.Action, e2: Escrow)
    requires StoreValid(order, escrows) && id in escrows
    requires Lifecycle.Perform(escrows[id], a) == Success(e2)
    ensures StoreValid(order, escrows[id := e2])
    ensures StoreEvolves(escrows, escrows[id := e2])
  {
    var e := escrows[id];
    Lifecycle.StepKeepsInv(e, a);
    Lifecycle.StepEvolves(e, a);
    forall k | k in escrows
      ensures Evolves(escrows[k], escrows[id := e2][k])
    {
      if k != id {
        EvolvesReflexive(escrows[k]);
      }
    }
  }

  /** Storing a consistent record under its own id keeps the store invariant; a new id joins the end of `order`. */
  lemma InsertKeepsValid(order: seq<EscrowId>, escrows: map<EscrowId, Escrow>, e: Escrow)
    requires StoreValid(order, escrows) && Inv(e)
    ensures StoreValid(if e.id in escrows then order else order + [e.id], escrows[e.id := e])
  {
  }

  class EscrowServer {
    /** `walletStore`: each session's wallet, reduced to its address. */
    var wallets: map<SessionId, Address>
    /** `escrowStore`. */
    var escrows: map<EscrowId, Escrow>
    /** The keys of `escrowStore` in insertion order, the order `Object.values` lists them in. */
    var order: seq<EscrowId>

    ghost predicate Valid()
      reads this
    {
      StoreValid(order, escrows)
    }

    /** The server at start-up: both stores empty. */
    constructor ()
      ensures Valid()
      ensures wallets == map[] && escrows == map[] && order == []
    {
      wallets, escrows, order := map[], map[], [];
    }

    /** `walletStore[walletId] = wallet` once a created, seeded or restored wallet reports its address. */
    method OpenWallet(walletId: SessionId, address: Address)
      modifies this`wallets
      ensures wallets == old(wallets)[walletId := address]
    {
      wallets := wallets[walletId := address];
    }

    /** `/close-wallet`. */
    method CloseWallet(walletId: SessionId) returns (r: Result<(), Error>)
      modifies this`wallets
      ensures r.Success? <==> SessionValid(old(wallets), walletId)
      ensures r.Failure? ==> r.error == InvalidWalletId && wallets == old(wallets)
      ensures r.Success? ==> wallets == old(wallets) - {walletId}
    {
      if walletId == "" || walletId !in wallets {
        return Failure(InvalidWalletId);
      }
      wallets := wallets - {walletId};
      r := Success(());
    }

    /** `/create-escrow`, storing the new record under `newId`. */
    method CreateEscrow(walletId: SessionId, receiverAddress: Address, amount: string, memo: string,
                        arbiterAddress: Address, newId: EscrowId, contractAddress: Hash,
                        transactionHash: Hash, now: Timestamp)
      returns (r: Result<Created, Error>)
      requires Valid()
      modifies this`escrows, this`order
      ensures Valid()
      ensures !SessionValid(wallets, walletId) ==> r == Failure(InvalidWalletId)
      ensures SessionValid(wallets, walletId) ==>
                var c := Create(newId, wallets[walletId], receiverAddress, amount, memo, arbiterAddress,
                                contractAddress, transactionHash, now);
                (c.Failure? ==> r == Failure(c.error))
                && (c.Success? ==> r == Success(Created(newId, contractAddress, transactionHash))
                                   && escrows == old(escrows)[newId := c.value])
      ensures r.Failure? ==> escrows == old(escrows) && order == old(order)
      ensures r.Success? ==> order == if newId in old(escrows) then old(order) else old(order) + [newId]
      ensures r.Success? && newId !in old(escrows) ==> escrows.Keys == old(escrows).Keys + {newId}
    {
      if walletId == "" || walletId !in wallets {
        return Failure(InvalidWalletId);
      }
      if receiverAddress == "" {
        return Failure(ReceiverRequired);
      }
      if !ValidAmount(amount) {
        return Failure(InvalidAmount);
      }
      var c := Create(newId, wallets[walletId], receiverAddress, amount, memo, arbiterAddress,
                      contractAddress, transactionHash, now);
      InsertKeepsValid(order, escrows, c.value);
      if newId !in escrows {
        order := order + [newId];
      }
      escrows := escrows[newId := c.value];
      r := Success(Created(newId, contractAddress, transactionHash));
    }

    /** `/approve-escrow`. */
    method ApproveEscrow(walletId: SessionId, escrowId: EscrowId, role: string, transactionHash: Hash)
      returns (r: Result<Receipt, Error>)
      requires Valid()
      modifies this`escrows
      ensures Valid() && StoreEvolves(old(escrows), escrows)
      ensures !SessionValid(wallets, walletId) ==> r == Failure(InvalidWalletId)
      ensures SessionValid(wallets, walletId) && !Found(old(escrows), escrowId) ==> r == Failure(InvalidEscrowId)
      ensures SessionValid(wallets, walletId) && Found(old(escrows), escrowId) && ParseParty(role).None?
              ==> r == Failure(InvalidRole)
      ensures SessionValid(wallets, walletId) && Found(old(escrows), escrowId) && ParseParty(role).Some? ==>
                var t := Approve(old(escrows)[escrowId], ParseParty(role).value, wallets[walletId]);
                r == Reply(escrowId, t, transactionHash) && escrows == Commit(old(escrows), escrowId, t)
      ensures r.Failure? ==> escrows == old(escrows)
    {
      StoreEvolvesReflexive(escrows);
      if walletId == "" || walletId !in wallets {
        return Failure(InvalidWalletId);
      }
      if escrowId == "" || escrowId !in escrows {
        return Failure(InvalidEscrowId);
      }
      var party := ParseParty(role);
      if party.None? {
        return Failure(InvalidRole);
      }
      var caller := wallets[walletId];
      var t := Approve(escrows[escrowId], party.value, caller);
      if t.Failure? {
        return Failure(t.error);
      }
      CommitKeepsValid(order, escrows, escrowId, Lifecycle.ApproveAs(party.value, caller), t.value);
      escrows := escrows[escrowId := t.value];
      r := Success(Receipt(escrowId, transactionHash));
    }

    /** `/release-escrow`. */
    method ReleaseEscrow(walletId: SessionId, escrowId: EscrowId, transactionHash: Hash, now: Timestamp)
      returns (r: Result<Receipt, Error>)
      requires Valid()
      modifies this`escrows
      ensures Valid() && StoreEvolves(old(escrows), escrows)
      ensures !SessionValid(wallets, walletId) ==> r == Failure(InvalidWalletId)
      ensures SessionValid(wallets, walletId) && !Found(old(escrows), escrowId) ==> r == Failure(InvalidEscrowId)
      ensures SessionValid(wallets, walletId) && Found(old(escrows), escrowId) ==>
                var t := Release(old(escrows)[escrowId], wallets[walletId], now);
                r == Reply(escrowId, t, transactionHash) && escrows == Commit(old(escrows), escrowId, t)
      ensures r.Failure? ==> escrows == old(escrows)
    {
      StoreEvolvesReflexive(escrows);
      if walletId == "" || walletId !in wallets {
        return Failure(InvalidWalletId);
      }
      if escrowId == "" || escrowId !in escrows {
        return Failure(InvalidEscrowId);
      }
      var caller := wallets[walletId];
      var t := Release(escrows[escrowId], caller, now);
      if t.Failure? {
        return Failure(t.error);
      }
      CommitKeepsValid(order, escrows, escrowId, Lifecycle.ReleaseBy(caller, now), t.value);
      escrows := escrows[escrowId := t.value];
      r := Success(Receipt(escrowId, transactionHash));
    }

    /** `/raise-dispute`. */
    method RaiseDisputeOn(walletId: SessionId, escrowId: EscrowId, transactionHash: Hash, now: Timestamp)
      returns (r: Result<Receipt, Error>)
      requires Valid()
      modifies this`escrows
      ensures Valid() && StoreEvolves(old(escrows), escrows)
      ensures !SessionValid(wallets, walletId) ==> r == Failure(InvalidWalletId)
      ensures SessionValid(wallets, walletId) && !Found(old(escrows), escrowId) ==> r == Failure(InvalidEscrowId)
      ensures SessionValid(wallets, walletId) && Found(old(escrows), escrowId) ==>
                var t := RaiseDispute(old(escrows)[escrowId], wallets[walletId], now);
                r == Reply(escrowId, t, transactionHash) && escrows == Commit(old(escrows), escrowId, t)
      ensures r.Failure? ==> escrows == old(escrows)
    {
      StoreEvolvesReflexive(escrows);
      if walletId == "" || walletId !in wallets {
        return Failure(InvalidWalletId);
      }
      if escrowId == "" || escrowId !in escrows {
        return Failure(InvalidEscrowId);
      }
      var caller := wallets[walletId];
      var t := RaiseDispute(escrows[escrowId], caller, now);
      if t.Failure? {
        return Failure(t.error);
      }
      CommitKeepsValid(order, escrows, escrowId, Lifecycle.DisputeBy(caller, now), t.value);
      escrows := escrows[escrowId := t.value];
      r := Success(Receipt(escrowId, transactionHash));
    }

    /** `/resolve-dispute`. */
    method ResolveDispute(walletId: SessionId, escrowId: EscrowId, deservingParty: string,
                          transactionHash: Hash, now: Timestamp)
      returns (r: Result<Receipt, Error>)
      requires Valid()
      modifies this`escrows
      ensures Valid() && StoreEvolves(old(escrows), escrows)
      ensures !SessionValid(wallets, walletId) ==> r == Failure(InvalidWalletId)
      ensures SessionValid(wallets, walletId) && !Found(old(escrows), escrowId) ==> r == Failure(InvalidEscrowId)
      ensures SessionValid(wallets, walletId) && Found(old(escrows), escrowId) && ParseParty(deservingParty).None?
              ==> r == Failure(InvalidDeservingParty)
      ensures SessionValid(wallets, walletId) && Found(old(escrows), escrowId) && ParseParty(deservingParty).Some? ==>
                var t := Resolve(old(escrows)[escrowId], wallets[walletId], ParseParty(deservingParty).value, now);
                r == Reply(escrowId, t, transactionHash) && escrows == Commit(old(escrows), escrowId, t)
      ensures r.Failure? ==> escrows == old(escrows)
    {
      StoreEvolvesReflexive(escrows);
      if walletId == "" || walletId !in wallets {
        return Failure(InvalidWalletId);
      }
      if escrowId == "" || escrowId !in escrows {
        return Failure(InvalidEscrowId);
      }
      var winner := ParseParty(deservingParty);
      if winner.None? {
        return Failure(InvalidDeservingParty);
      }
      var caller := wallets[walletId];
      var t := Resolve(escrows[escrowId], caller, winner.value, now);
      if t.Failure? {
        return Failure(t.error);
      }
      CommitKeepsValid(order, escrows, escrowId, Lifecycle.ResolveBy(caller, winner.value, now), t.value);
      escrows := escrows[escrowId := t.value];
      r := Success(Receipt(escrowId, transactionHash));
    }

    /** `/cancel-escrow`. */
    method CancelEscrow(walletId: SessionId, escrowId: EscrowId, transactionHash: Hash, now: Timestamp)
      returns (r: Result<Receipt, Error>)
      requires Valid()
      modifies this`escrows
      ensures Valid() && StoreEvolves(old(escrows), escrows)
      ensures !SessionValid(wallets, walletId) ==> r == Failure(InvalidWalletId)
      ensures SessionValid(wallets, walletId) && !Found(old(escrows), escrowId) ==> r == Failure(InvalidEscrowId)
      ensures SessionValid(wallets, walletId) && Found(old(escrows), escrowId) ==>
                var t := Cancel(old(escrows)[escrowId], wallets[walletId], now);
                r == Reply(escrowId, t, transactionHash) && escrows == Commit(old(escrows), escrowId, t)
      ensures r.Failure? ==> escrows == old(escrows)
    {
      StoreEvolvesReflexive(escrows);
      if walletId == "" || walletId !in wallets {
        return Failure(InvalidWalletId);
      }
      if escrowId == "" || escrowId !in escrows {
        return Failure(InvalidEscrowId);
      }
      var caller := wallets[walletId];
      var t := Cancel(escrows[escrowId], caller, now);
      if t.Failure? {
        return Failure(t.error);
      }
      CommitKeepsValid(order, escrows, escrowId, Lifecycle.CancelBy(caller, now), t.value);
      escrows := escrows[escrowId := t.value];
      r := Success(Receipt(escrowId, transactionHash));
    }

    /** `/get-escrows`: the caller's escrows in the given role, in creation order. */
    function GetEscrows(walletId: SessionId, role: string): (r: Result<seq<Escrow>, Error>)
      reads this
      ensures !SessionValid(wallets, walletId) ==> r == Failure(InvalidWalletId)
      ensures SessionValid(wallets, walletId) && ParseRole(role).None? ==> r == Failure(InvalidRole)
      ensures r.Success? <==> SessionValid(wallets, walletId) && ParseRole(role).Some?
      ensures r.Success? ==> forall e :: e in r.value ==>
                e.RoleAddress(ParseRole(role).value) == Some(wallets[walletId])
                && exists i :: 0 <= i < |order| && order[i] in escrows && escrows[order[i]] == e
      ensures r.Success? ==>
                forall i :: 0 <= i < |order| && order[i] in escrows
                            && escrows[order[i]].RoleAddress(ParseRole(role).value) == Some(wallets[walletId])
                            ==> escrows[order[i]] in r.value
    {
      if walletId == "" || walletId !in wallets then Failure(InvalidWalletId)
      else if ParseRole(role).None? then Failure(InvalidRole)
      else Success(Queries.Select(order, escrows, Queries.HasRole(ParseRole(role).value, wallets[walletId])))
    }

    /** `/get-pending-escrows`: the caller's escrows as buyer not yet approved by them nor released. */
    function GetPendingEscrows(walletId: SessionId): (r: Result<seq<Escrow>, Error>)
      reads this
      ensures r.Success? <==> SessionValid(wallets, walletId)
      ensures r.Failure? ==> r.error == InvalidWalletId
      ensures r.Success? ==> forall e :: e in r.value ==>
                e.buyer == wallets[walletId] && !e.fundsReleased && !e.buyerApproved
                && exists i :: 0 <= i < |order| && order[i] in escrows && escrows[order[i]] == e
      ensures r.Success? ==>
                forall i :: 0 <= i < |order| && order[i] in escrows
                            && escrows[order[i]].buyer == wallets[walletId]
                            && !escrows[order[i]].fundsReleased && !escrows[order[i]].buyerApproved
                            ==> escrows[order[i]] in r.value
    {
      if walletId == "" || walletId !in wallets then Failure(InvalidWalletId)
      else Success(Queries.Select(order, escrows, Queries.PendingFor(wallets[walletId])))
    }
  }
}
