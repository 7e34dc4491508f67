/**
 * Sequences of handler calls on one escrow record. A rejected call leaves the
 * record as it was; an accepted one replaces it with the transition's result.
 * The lemmas state what every such sequence preserves.
 */
module Lifecycle {
  import opened Outcomes
  import opened Escrows

  /** One mutating request against an existing record, after its caller's address is resolved. */
  datatype Action =
    | ApproveAs(party: Party, caller: Address)
    | ReleaseBy(caller: Address, at: Timestamp)
    | DisputeBy(caller: Address, at: Timestamp)
    | ResolveBy(caller: Address, winner: Party, at: Timestamp)
    | CancelBy(caller: Address, at: Timestamp)

  function Perform(e: Escrow, a: Action): Result<Escrow, Error> {
    match a
    case ApproveAs(p, c) => Approve(e, p, c)
    case ReleaseBy(c, t) => Release(e, c, t)
    case DisputeBy(c, t) => RaiseDispute(e, c, t)
    case ResolveBy(c, w, t) => Resolve(e, c, w, t)
    case CancelBy(c, t) => Cancel(e, c, t)
  }

  /** The record after one request: unchanged when the request is rejected. */
  function After(e: Escrow, a: Action): Escrow {
    var r := Perform(e, a);
    if r.Success? then r.value else e
  }

  /** The record after a sequence of requests, in order. */
  function Run(e: Escrow, acts: seq<Action>): Escrow
    decreases |acts|
  {
    if acts == [] then e else Run(After(e, acts[0]), acts[1..])
  }

  /** Every transition keeps the record invariant. */
  lemma StepKeepsInv(e: Escrow, a: Action)
    requires Inv(e)
    ensures Inv(After(e, a))
  {
  }

  /** Every transition, accepted or not, is a step the record may take. */
  lemma StepEvolves(e: Escrow, a: Action)
    requires Inv(e)
    ensures Evolves(e, After(e, a))
  {
  }

  /**
   * An amount `/create-escrow` accepted stays what it was, and so stays a
   * valid amount, whatever is requested afterwards.
   */
  lemma AmountStaysValid(id: EscrowId, buyer: Address, receiverAddress: Address, amount: string, memo: string,
                         arbiterAddress: Address, contractAddress: Hash, transactionHash: Hash, now: Timestamp,
                         acts: seq<Action>)
    requires Create(id, buyer, receiverAddress, amount, memo, arbiterAddress, contractAddress,
                    transactionHash, now).Success?
    ensures var e := Create(id, buyer, receiverAddress, amount, memo, arbiterAddress, contractAddress,
                            transactionHash, now).value;
            Run(e, acts).amount == amount && ValidAmount(Run(e, acts).amount)
  {
    var e := Create(id, buyer, receiverAddress, amount, memo, arbiterAddress, contractAddress,
                    transactionHash, now).value;
    RunEvolves(e, acts);
  }

  /** Once the funds are released, every mutating request is rejected. */
  lemma ReleasedRejectsAll(e: Escrow, a: Action)
    requires e.fundsReleased
    ensures Perform(e, a).Failure? && After(e, a) == e
  {
  }

  /** Any sequence of requests keeps the record invariant. */
  lemma {:induction false} RunKeepsInv(e: Escrow, acts: seq<Action>)
    requires Inv(e)
    ensures Inv(Run(e, acts))
    decreases |acts|
  {
    if acts != [] {
      StepKeepsInv(e, acts[0]);
      RunKeepsInv(After(e, acts[0]), acts[1..]);
    }
  }

  /** Any sequence of requests only moves the record forward. */
  lemma {:induction false} RunEvolves(e: Escrow, acts: seq<Action>)
    requires Inv(e)
    ensures Evolves(e, Run(e, acts))
    decreases |acts|
  {
    if acts != [] {
      var e1 := After(e, acts[0]);
      StepKeepsInv(e, acts[0]);
      StepEvolves(e, acts[0]);
      RunEvolves(e1, acts[1..]);
      EvolvesTransitive(e, e1, Run(e1, acts[1..]));
    }
  }

  /** A released record stays exactly as it is, whatever is requested afterwards. */
  lemma {:induction false} ReleasedIsFinal(e: Escrow, acts: seq<Action>)
    requires e.fundsReleased
    ensures Run(e, acts) == e
    decreases |acts|
  {
    if acts != [] {
      ReleasedRejectsAll(e, acts[0]);
      ReleasedIsFinal(e, acts[1..]);
    }
  }

  /** Approving twice as the same party: the second request is rejected and changes nothing. */
  lemma ApproveTwiceRejected(e: Escrow, p: Party, caller: Address)
    requires Approve(e, p, caller).Success?
    ensures var e1 := Approve(e, p, caller).value;
            Approve(e1, p, caller) == Failure(AlreadyApproved(p))
            && After(e1, ApproveAs(p, caller)) == e1
  {
  }

  /** Raising a dispute twice: the second request is rejected and changes nothing. */
  lemma DisputeTwiceRejected(e: Escrow, caller: Address, t1: Timestamp, t2: Timestamp)
    requires RaiseDispute(e, caller, t1).Success?
    ensures var e1 := RaiseDispute(e, caller, t1).value;
            RaiseDispute(e1, caller, t2) == Failure(AlreadyDisputed)
            && After(e1, DisputeBy(caller, t2)) == e1
  {
  }

  /** The arbiter's ruling does not depend on the approval flags. */
  lemma ResolveIgnoresApprovals(e: Escrow, caller: Address, w: Party, now: Timestamp, b: bool, s: bool)
    ensures Resolve(e.(buyerApproved := b, sellerApproved := s), caller, w, now).Success?
            == Resolve(e, caller, w, now).Success?
  {
  }

  /** Without an arbiter no request raises a dispute or resolves one. */
  lemma {:induction false} NoArbiterNeverDisputed(e: Escrow, acts: seq<Action>)
    requires Inv(e) && !e.HasArbiter()
    ensures !Run(e, acts).disputeRaised && Run(e, acts).resolvedBy.None?
    decreases |acts|
  {
    if acts != [] {
      StepKeepsInv(e, acts[0]);
      NoArbiterNeverDisputed(After(e, acts[0]), acts[1..]);
    }
  }

  /**
   * Released funds were released either by both parties' approvals with no
   * dispute, or by the arbiter's ruling on a raised dispute.
   */
  lemma ReleaseExplained(e: Escrow)
    requires Inv(e) && e.fundsReleased
    ensures (!e.disputeRaised && e.buyerApproved && e.sellerApproved && e.resolvedBy.None?)
            || (e.disputeRaised && e.HasArbiter() && e.resolvedBy == e.arbiter && e.resolvedInFavorOf.Some?)
  {
  }

  /**
   * Cancelling does not end the lifecycle: a cancelled escrow can still be
   * approved by both parties and released, after which it is both cancelled
   * and released.
   */
  lemma CancelledEscrowCanBeReleased(buyer: Address, seller: Address, e: Escrow, t1: Timestamp, t2: Timestamp)
    requires IsFresh(e) && e.buyer == buyer && e.seller == seller
    ensures var done := Run(e, [CancelBy(buyer, t1), ApproveAs(Buyer, buyer), ApproveAs(Seller, seller),
                                ReleaseBy(buyer, t2)]);
            done.status == Cancelled && done.fundsReleased
  {
    var e1 := After(e, CancelBy(buyer, t1));
    var e2 := After(e1, ApproveAs(Buyer, buyer));
    var e3 := After(e2, ApproveAs(Seller, seller));
    var e4 := After(e3, ReleaseBy(buyer, t2));
    assert e4.status == Cancelled && e4.fundsReleased;
    assert Run(e4, []) == e4;
    assert Run(e3, [ReleaseBy(buyer, t2)]) == e4;
    assert Run(e2, [ApproveAs(Seller, seller), ReleaseBy(buyer, t2)]) == e4;
    assert Run(e1, [ApproveAs(Buyer, buyer), ApproveAs(Seller, seller), ReleaseBy(buyer, t2)]) == e4;
  }

  /** Cancelling is not refused when repeated; each repeat overwrites `cancelledAt`. */
  lemma CancelRepeats(e: Escrow, t1: Timestamp, t2: Timestamp)
    requires Cancel(e, e.buyer, t1).Success?
    ensures Cancel(Cancel(e, e.buyer, t1).value, e.buyer, t2).Success?
    ensures Cancel(Cancel(e, e.buyer, t1).value, e.buyer, t2).value.cancelledAt == Some(t2)
  {
  }
}
