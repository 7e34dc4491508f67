/**
 * One escrow record of the backend's escrow store and the guarded transitions
 * the request handlers apply to it once the caller's wallet address is known.
 * Each transition checks its guards in the handler's order and either rejects
 * with an error kind (the record is then left as it was) or returns the record
 * with the handler's in-place field updates applied.
 */
module Escrows {
  import opened Outcomes
  import JsNumber

  /** A payment-network address, as `wallet.state()` reports it or a client sends it. */
  type Address = string
  /** The key of a record in the escrow store (a UUID v4 in the backend). */
  type EscrowId = string
  /** The key of a wallet session in the wallet store. */
  type SessionId = string
  /** An ISO-8601 time stamp, as `new Date().toISOString()` yields it. */
  type Timestamp = string
  /** A simulated transaction hash or contract address. */
  type Hash = string

  datatype Role = Buyer | Seller | Arbiter

  /** The roles that approve, raise disputes and can be paid out. */
  type Party = r: Role | r != Arbiter witness Buyer

  /** The request-field spelling of a role. */
  function RoleName(r: Role): string {
    match r
    case Buyer => "buyer"
    case Seller => "seller"
    case Arbiter => "arbiter"
  }

  /** `['buyer', 'seller', 'arbiter'].includes(role)`, giving the role it names. */
  function ParseRole(s: string): (r: Option<Role>)
    ensures r.Some? ==> RoleName(r.value) == s
    ensures r.None? ==> s != "buyer" && s != "seller" && s != "arbiter"
  {
    if s == "buyer" then Some(Buyer)
    else if s == "seller" then Some(Seller)
    else if s == "arbiter" then Some(Arbiter)
    else None
  }

  /** Parsing a role's name gives the role back. */
  lemma ParseRoleName(r: Role)
    ensures ParseRole(RoleName(r)) == Some(r)
  {
  }

  /** `['buyer', 'seller'].includes(s)`, giving the party it names. */
  function ParseParty(s: string): (r: Option<Party>)
    ensures r.Some? <==> ParseRole(s).Some? && ParseRole(s).value != Arbiter
    ensures r.Some? ==> RoleName(r.value) == s
  {
    if s == "buyer" then Some(Buyer)
    else if s == "seller" then Some(Seller)
    else None
  }

  /** The other side of a two-party agreement. */
  function Counterpart(p: Party): (q: Party)
    ensures q != p
  {
    if p == Buyer then Seller else Buyer
  }

  datatype Status = Active | Cancelled

  /** The record `/create-escrow` stores; absent optional properties are `None`. */
  datatype Escrow = Escrow(
    id: EscrowId,
    buyer: Address,
    seller: Address,
    amount: string,
    memo: string,
    buyerApproved: bool,
    sellerApproved: bool,
    fundsReleased: bool,
    disputeRaised: bool,
    arbiter: Option<Address>,
    contractAddress: Hash,
    transactionHash: Hash,
    createdAt: Timestamp,
    status: Status,
    releasedAt: Option<Timestamp>,
    disputeRaisedAt: Option<Timestamp>,
    disputeRaisedBy: Option<Address>,
    resolvedBy: Option<Address>,
    resolvedInFavorOf: Option<Party>,
    cancelledAt: Option<Timestamp>)
  {
    /** `escrow[role]`: the address recorded for a role, if any. */
    function RoleAddress(r: Role): Option<Address> {
      match r
      case Buyer => Some(buyer)
      case Seller => Some(seller)
      case Arbiter => arbiter
    }

    /** The approval flag of a party. */
    predicate Approved(p: Party) {
      if p == Buyer then buyerApproved else sellerApproved
    }

    /** `escrow.buyer === a || escrow.seller === a`. */
    predicate IsParty(a: Address) {
      a == buyer || a == seller
    }

    /** `escrow.arbiter` is truthy. */
    predicate HasArbiter() {
      arbiter.Some? && arbiter.value != ""
    }
  }

  /** Why a handler rejects a request. */
  datatype Error =
    | InvalidWalletId
    | InvalidEscrowId
    | ReceiverRequired
    | InvalidAmount
    | InvalidRole
    | InvalidDeservingParty
    | Forbidden
    | AlreadyReleased
    | AlreadyApproved(party: Party)
    | DisputeActive
    | ApprovalsIncomplete
    | AlreadyDisputed
    | NoArbiter
    | NoDispute

  /**
   * The HTTP status every handler answers a `Failure` with: 403 for an
   * authorisation failure, 400 for every other error kind.
   */
  function HttpStatus(e: Error): (code: int)
    ensures code == 400 || code == 403
    ensures code == 403 <==> e.Forbidden?
  {
    if e.Forbidden? then 403 else 400
  }

  /** `!amount || isNaN(Number(amount))` is false. */
  predicate ValidAmount(amount: string) {
    amount != "" && JsNumber.IsNumeric(amount)
  }

  /** A record as creation leaves it: nothing approved, released, disputed, resolved or cancelled yet. */
  predicate IsFresh(e: Escrow) {
    && !e.buyerApproved && !e.sellerApproved && !e.fundsReleased && !e.disputeRaised
    && e.status == Active
    && e.releasedAt.None? && e.disputeRaisedAt.None? && e.disputeRaisedBy.None?
    && e.resolvedBy.None? && e.resolvedInFavorOf.None? && e.cancelledAt.None?
  }

  /**
   * The invariant every record in the store keeps. The amount, which creation
   * also validates, never changes afterwards (see `Evolves`), so its validity
   * is stated apart from this invariant.
   */
  predicate Inv(e: Escrow) {
    // what creation validated and never changes afterwards
    && e.seller != ""
    && (e.arbiter.Some? ==> e.HasArbiter())
    // a dispute can only be raised where an arbiter can resolve it
    && (e.disputeRaised ==> e.HasArbiter())
    && (e.disputeRaisedAt.Some? <==> e.disputeRaised)
    && (e.disputeRaisedBy.Some? <==> e.disputeRaised)
    && (e.disputeRaisedBy.Some? ==> e.IsParty(e.disputeRaisedBy.value))
    // funds move only after both approvals, or by the arbiter's ruling on a dispute
    && (e.fundsReleased ==> (e.buyerApproved && e.sellerApproved) || e.disputeRaised)
    && (e.releasedAt.Some? <==> e.fundsReleased)
    && (e.resolvedBy.Some? <==> e.fundsReleased && e.disputeRaised)
    && (e.resolvedBy.Some? ==> e.resolvedBy == e.arbiter)
    && (e.resolvedInFavorOf.Some? <==> e.resolvedBy.Some?)
    && (e.cancelledAt.Some? <==> e.status == Cancelled)
  }

  /**
   * How a record may change over time: the fields fixed at creation stay
   * fixed, no flag is ever reset, the one-shot time stamps are written once,
   * and a released record does not change at all.
   */
  predicate Evolves(e: Escrow, e2: Escrow) {
    && e2.id == e.id && e2.buyer == e.buyer && e2.seller == e.seller
    && e2.amount == e.amount && e2.memo == e.memo && e2.arbiter == e.arbiter
    && e2.contractAddress == e.contractAddress && e2.transactionHash == e.transactionHash
    && e2.createdAt == e.createdAt
    && (e.buyerApproved ==> e2.buyerApproved)
    && (e.sellerApproved ==> e2.sellerApproved)
    && (e.disputeRaised ==> e2.disputeRaised)
    && (e.fundsReleased ==> e2.fundsReleased)
    && (e.status == Cancelled ==> e2.status == Cancelled)
    && (e.releasedAt.Some? ==> e2.releasedAt == e.releasedAt)
    && (e.disputeRaisedAt.Some? ==> e2.disputeRaisedAt == e.disputeRaisedAt
                                    && e2.disputeRaisedBy == e.disputeRaisedBy)
    && (e.resolvedBy.Some? ==> e2.resolvedBy == e.resolvedBy
                               && e2.resolvedInFavorOf == e.resolvedInFavorOf)
    && (e.fundsReleased ==> e2 == e)
  }

  lemma EvolvesReflexive(e: Escrow)
    ensures Evolves(e, e)
  {
  }

  lemma EvolvesTransitive(e1: Escrow, e2: Escrow, e3: Escrow)
    requires Evolves(e1, e2) && Evolves(e2, e3)
    ensures Evolves(e1, e3)
  {
  }

  /**
   * `/create-escrow` once the session is valid: validate the receiver and the
   * amount, then build the record with the caller as buyer.
   */
  function Create(id: EscrowId, buyer: Address, receiverAddress: Address, amount: string, memo: string,
                  arbiterAddress: Address, contractAddress: Hash, transactionHash: Hash, now: Timestamp)
    : (r: Result<Escrow, Error>)
    ensures r.Success? <==> receiverAddress != "" && ValidAmount(amount)
    ensures receiverAddress == "" ==> r == Failure(ReceiverRequired)
    ensures receiverAddress != "" && !ValidAmount(amount) ==> r == Failure(InvalidAmount)
    ensures r.Success? ==> Inv(r.value) && IsFresh(r.value)
    ensures r.Success? ==> r.value.id == id && r.value.buyer == buyer && r.value.seller == receiverAddress
                           && r.value.amount == amount && r.value.memo == memo
                           && r.value.createdAt == now && r.value.contractAddress == contractAddress
                           && r.value.transactionHash == transactionHash
    ensures r.Success? ==> (r.value.arbiter.Some? <==> arbiterAddress != "")
                           && (r.value.arbiter.Some? ==> r.value.arbiter.value == arbiterAddress)
  {
    if receiverAddress == "" then Failure(ReceiverRequired)
    else if !ValidAmount(amount) then Failure(InvalidAmount)
    else
      Success(Escrow(id, buyer, receiverAddress, amount, memo,
                     false, false, false, false,
                     if arbiterAddress != "" then Some(arbiterAddress) else None,
                     contractAddress, transactionHash, now, Active,
                     None, None, None, None, None, None))
  }

  /** `/approve-escrow` once the session, escrow id and role are valid. */
  function Approve(e: Escrow, p: Party, caller: Address): (r: Result<Escrow, Error>)
    ensures r.Success? <==> e.RoleAddress(p) == Some(caller) && !e.fundsReleased && !e.Approved(p)
    ensures e.RoleAddress(p) != Some(caller) ==> r == Failure(Forbidden)
    ensures e.RoleAddress(p) == Some(caller) && e.fundsReleased ==> r == Failure(AlreadyReleased)
    ensures e.RoleAddress(p) == Some(caller) && !e.fundsReleased && e.Approved(p) ==> r == Failure(AlreadyApproved(p))
    ensures r.Success? ==> r.value.Approved(p) && r.value.Approved(Counterpart(p)) == e.Approved(Counterpart(p))
                           && r.value.(buyerApproved := e.buyerApproved, sellerApproved := e.sellerApproved) == e
    ensures Inv(e) && r.Success? ==> Inv(r.value) && Evolves(e, r.value)
  {
    if e.RoleAddress(p) != Some(caller) then Failure(Forbidden)
    else if e.fundsReleased then Failure(AlreadyReleased)
    else if p == Buyer && e.buyerApproved then Failure(AlreadyApproved(p))
    else if p == Seller && e.sellerApproved then Failure(AlreadyApproved(p))
    else if p == Buyer then Success(e.(buyerApproved := true))
    else Success(e.(sellerApproved := true))
  }

  /** `/release-escrow` once the session and escrow id are valid. */
  function Release(e: Escrow, caller: Address, now: Timestamp): (r: Result<Escrow, Error>)
    ensures r.Success? <==> e.IsParty(caller) && !e.fundsReleased && !e.disputeRaised
                            && e.buyerApproved && e.sellerApproved
    ensures !e.IsParty(caller) ==> r == Failure(Forbidden)
    ensures e.IsParty(caller) && e.fundsReleased ==> r == Failure(AlreadyReleased)
    ensures e.IsParty(caller) && !e.fundsReleased && e.disputeRaised ==> r == Failure(DisputeActive)
    ensures e.IsParty(caller) && !e.fundsReleased && !e.disputeRaised && !(e.buyerApproved && e.sellerApproved)
            ==> r == Failure(ApprovalsIncomplete)
    ensures r.Success? ==> r.value.fundsReleased && r.value.releasedAt == Some(now)
                           && r.value.(fundsReleased := e.fundsReleased, releasedAt := e.releasedAt) == e
    ensures Inv(e) && r.Success? ==> Inv(r.value) && Evolves(e, r.value)
  {
    if !e.IsParty(caller) then Failure(Forbidden)
    else if e.fundsReleased then Failure(AlreadyReleased)
    else if e.disputeRaised then Failure(DisputeActive)
    else if !e.buyerApproved || !e.sellerApproved then Failure(ApprovalsIncomplete)
    else Success(e.(fundsReleased := true, releasedAt := Some(now)))
  }

  /** `/raise-dispute` once the session and escrow id are valid. */
  function RaiseDispute(e: Escrow, caller: Address, now: Timestamp): (r: Result<Escrow, Error>)
    ensures r.Success? <==> e.IsParty(caller) && !e.fundsReleased && !e.disputeRaised && e.HasArbiter()
    ensures !e.IsParty(caller) ==> r == Failure(Forbidden)
    ensures e.IsParty(caller) && e.fundsReleased ==> r == Failure(AlreadyReleased)
    ensures e.IsParty(caller) && !e.fundsReleased && e.disputeRaised ==> r == Failure(AlreadyDisputed)
    ensures e.IsParty(caller) && !e.fundsReleased && !e.disputeRaised && !e.HasArbiter() ==> r == Failure(NoArbiter)
    ensures r.Success? ==> r.value.disputeRaised && r.value.disputeRaisedAt == Some(now)
                           && r.value.disputeRaisedBy == Some(caller)
                           && r.value.(disputeRaised := e.disputeRaised, disputeRaisedAt := e.disputeRaisedAt,
                                       disputeRaisedBy := e.disputeRaisedBy) == e
    ensures Inv(e) && r.Success? ==> Inv(r.value) && Evolves(e, r.value)
  {
    if !e.IsParty(caller) then Failure(Forbidden)
    else if e.fundsReleased then Failure(AlreadyReleased)
    else if e.disputeRaised then Failure(AlreadyDisputed)
    else if !e.HasArbiter() then Failure(NoArbiter)
    else Success(e.(disputeRaised := true, disputeRaisedAt := Some(now), disputeRaisedBy := Some(caller)))
  }

  /**
   * `/resolve-dispute` once the session, escrow id and deserving party are
   * valid. A record without an arbiter never matches the caller, so it is
   * always refused as Forbidden.
   */
  function Resolve(e: Escrow, caller: Address, winner: Party, now: Timestamp): (r: Result<Escrow, Error>)
    ensures r.Success? <==> e.arbiter == Some(caller) && e.disputeRaised && !e.fundsReleased
    ensures e.arbiter != Some(caller) ==> r == Failure(Forbidden)
    ensures e.arbiter == Some(caller) && !e.disputeRaised ==> r == Failure(NoDispute)
    ensures e.arbiter == Some(caller) && e.disputeRaised && e.fundsReleased ==> r == Failure(AlreadyReleased)
    ensures r.Success? ==> r.value.fundsReleased && r.value.releasedAt == Some(now)
                           && r.value.resolvedBy == Some(caller) && r.value.resolvedInFavorOf == Some(winner)
                           && r.value.(fundsReleased := e.fundsReleased, releasedAt := e.releasedAt,
                                       resolvedBy := e.resolvedBy, resolvedInFavorOf := e.resolvedInFavorOf) == e
    ensures Inv(e) && r.Success? ==> Inv(r.value) && Evolves(e, r.value)
  {
    if e.arbiter != Some(caller) then Failure(Forbidden)
    else if !e.disputeRaised then Failure(NoDispute)
    else if e.fundsReleased then Failure(AlreadyReleased)
    else Success(e.(fundsReleased := true, releasedAt := Some(now),
                    resolvedBy := Some(caller), resolvedInFavorOf := Some(winner)))
  }

  /**
   * `/cancel-escrow` once the session and escrow id are valid. The status is
   * never read by any handler, so a cancelled record can be cancelled again
   * (which overwrites `cancelledAt`) and can still be approved, released and
   * disputed.
   */
  function Cancel(e: Escrow, caller: Address, now: Timestamp): (r: Result<Escrow, Error>)
    ensures r.Success? <==> e.buyer == caller && !e.fundsReleased && !e.disputeRaised
    ensures e.buyer != caller ==> r == Failure(Forbidden)
    ensures e.buyer == caller && e.fundsReleased ==> r == Failure(AlreadyReleased)
    ensures e.buyer == caller && !e.fundsReleased && e.disputeRaised ==> r == Failure(DisputeActive)
    ensures r.Success? ==> r.value.status == Cancelled && r.value.cancelledAt == Some(now)
                           && r.value.(status := e.status, cancelledAt := e.cancelledAt) == e
    ensures Inv(e) && r.Success? ==> Inv(r.value) && Evolves(e, r.value)
  {
    if e.buyer != caller then Failure(Forbidden)
    else if e.fundsReleased then Failure(AlreadyReleased)
    else if e.disputeRaised then Failure(DisputeActive)
    else Success(e.(status := Cancelled, cancelledAt := Some(now)))
  }
}
