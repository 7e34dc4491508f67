# Escrow core of the Blockchain Payment Manager, in Dafny

This project models the escrow logic of the payment manager's backend and of
its small Python escrow ledger, and proves properties of both.

The backend (`backend/server.js`) keeps two in-memory stores:

- `walletStore`: the open wallet sessions;
- `escrowStore`: the escrow records.

Eight HTTP handlers work on the escrow records: create, approve, release,
raise-dispute, resolve-dispute, cancel, and two queries. An escrow record has
the following parties and state:

- a buyer (the creator's wallet address) and a seller (the receiver);
- an optional arbiter;
- four flags: `buyerApproved`, `sellerApproved`, `disputeRaised`, `fundsReleased`;
- a `status` of `Active` or `Cancelled`;
- time stamps written by the transitions.

Every mutating handler checks its guards in a fixed order, and a rejected
request leaves the stores untouched:

1. the session is valid;
2. the escrow exists;
3. the role or party field is valid;
4. the caller is authorised;
5. the state checks pass.

A rejection is an error with its HTTP code, 400 or 403.

The model is split by concern:

- `Escrows` (escrows.dfy) holds the record, the errors, and one pure transition function per handler. Each function states when it succeeds, which error it returns in guard order, and exactly which fields it writes. The module also holds the record invariant `Inv` and the relation `Evolves`, which says how a record may change over time.
- `JsNumber` (js_number.dfy) decides the amount check `isNaN(Number(amount))`. It follows the StringNumericLiteral grammar of section 7.1.4.1.1 of the ECMAScript Language Specification. It proves that the trimming recognizer agrees with that grammar.
- `Lifecycle` (lifecycle.dfy) covers sequences of requests on one record. It proves that any sequence keeps the invariant, only moves the record forward, and leaves a released record alone.
- `Queries` (queries.dfy) models the `Object.values(escrowStore).filter(...)` queries. They keep the store's insertion order, which is the order a JavaScript object lists its keys in when no key is an integer index (uuidv4 ids are never integer-like).
- `Server` (server.dfy) is the `EscrowServer` class. Its fields are the session map, the escrow map and the key insertion order. There is one method per mutating handler and one function per query. The five transition methods (`ApproveEscrow`, `ReleaseEscrow`, `RaiseDisputeOn`, `ResolveDispute`, `CancelEscrow`) are each proved against their pure transition, keep the store invariant, and move every stored record forward. `CreateEscrow` is proved against `Escrows.Create` and keeps the store invariant only, since a repeated id replaces a record with a fresh one. `OpenWallet` and `CloseWallet` are plain map updates of the session table.
- `EscManager` (esc_manager.dfy) models the Python class `Escrow`. Its `escrow_data` dictionary is a map field that `LockFunds` and `ReleaseFunds` update in place. Both methods are specified by the pure functions `Lock` and `Release`.
- `Outcomes` (outcomes.dfy) holds the `Option` and `Result` types.

Outside inputs are parameters:

- A wallet session is reduced to the address its `wallet.state()` reports.
- The fresh escrow id (`uuidv4()`), the simulated contract address and transaction hashes, and the `new Date()` time stamps are passed in as parameters.
- Request fields are strings, and the empty string stands for a missing or falsy field.

In these places the code behaves as follows, and the model does the same:

- Cancelling is not terminal. No handler reads `status`. A cancelled escrow can still be approved, disputed and released, so a record can be both cancelled and released (`Lifecycle.CancelledEscrowCanBeReleased`).
- Cancel can be repeated, and each repeat overwrites `cancelledAt` (`Lifecycle.CancelRepeats`).
- The amount is checked only by `!amount || isNaN(Number(amount))`. So `"0"`, negative amounts, `"0x10"`, `"Infinity"` and strings of white space only are accepted, and there is no positive-integer check.
- There is no risk screening (reported addresses or an amount ceiling) in the code, so none is modelled.

## Model

| member | source | states |
|---|---|---|
| Escrows.ParseRole | backend/server.js:468-473 | the `role` query parameter is accepted exactly when it is `buyer`, `seller` or `arbiter`, and the role returned is the one named |
| Escrows.ParseRoleName | backend/server.js:468-473 | parsing a role's own name gives that role back |
| Escrows.ParseParty | backend/server.js:537-542 | the approving role or deserving party is accepted exactly when it is `buyer` or `seller` |
| Escrows.Counterpart | backend/server.js:576-600 | the other party of an escrow is never the party itself |
| Escrows.HttpStatus | backend/server.js:559-573 | every rejection answers 400 or 403, and 403 exactly for the caller-is-not-authorised case |
| Escrows.EvolvesReflexive | backend/server.js:559-588 | a record that a refused request leaves as it is satisfies the may-evolve relation (a proof helper for the rejection paths) |
| Escrows.EvolvesTransitive | backend/server.js:519-1024 | two successive permitted changes of a record form one permitted change |
| Escrows.Create | backend/server.js:341-395 | creation fails with ReceiverRequired, then InvalidAmount, exactly when the receiver is missing or the amount is empty or not a number; otherwise it builds a record with the caller as buyer, the receiver as seller, nothing approved, released, disputed or cancelled, an arbiter exactly when one was given, and the invariant holding |
| Escrows.Approve | backend/server.js:559-600 | approval succeeds iff the caller is the address in the named role, the funds are not released and that role has not approved; the errors come as Forbidden, AlreadyReleased, AlreadyApproved in that order; success sets only that role's flag and keeps the invariant and the may-evolve relation |
| Escrows.Release | backend/server.js:653-689 | release succeeds iff the caller is buyer or seller, the funds are not released, no dispute is raised and both parties approved; the errors come as Forbidden, AlreadyReleased, DisputeActive, ApprovalsIncomplete; success sets only `fundsReleased` and `releasedAt` |
| Escrows.RaiseDispute | backend/server.js:742-780 | raising a dispute succeeds iff the caller is buyer or seller, the funds are not released, no dispute is raised and an arbiter is present; success sets only the dispute flag, its time and the caller as raiser |
| Escrows.Resolve | backend/server.js:840-874 | resolving succeeds iff the caller is the arbiter (no arbiter means Forbidden), a dispute is raised and the funds are not released, whatever the approvals; success sets only `fundsReleased`, `releasedAt`, `resolvedBy` and `resolvedInFavorOf` |
| Escrows.Cancel | backend/server.js:980-1008 | cancelling succeeds iff the caller is the buyer, the funds are not released and no dispute is raised; success sets only `status` to Cancelled and `cancelledAt` |
| JsNumber.LeadingDigits | backend/server.js:355 | the scanned prefix is all decimal digits and is followed by a non-digit or the end |
| JsNumber.ExponentIndex | backend/server.js:355 | the index found is the first `e` or `E` of the string, or its length |
| JsNumber.TrimStart | backend/server.js:355 | trimming removes exactly the leading white space |
| JsNumber.TrimEnd | backend/server.js:355 | trimming removes exactly the trailing white space |
| JsNumber.LiteralEdges | backend/server.js:355 | a numeric literal neither starts nor ends with white space |
| JsNumber.TrimStartSkipsWhite | backend/server.js:355 | leading white space does not affect the start-trimmed string |
| JsNumber.TrimEndSkipsWhite | backend/server.js:355 | trailing white space does not affect the end-trimmed string |
| JsNumber.TrimSplit | backend/server.js:355 | every string is white space, its trimmed middle, then white space |
| JsNumber.NumericToGrammar | backend/server.js:355 | a string the recognizer accepts is a StringNumericLiteral |
| JsNumber.GrammarToNumeric | backend/server.js:355 | every StringNumericLiteral is accepted by the recognizer |
| JsNumber.NumericIffGrammar | backend/server.js:355 | `Number(s)` is not NaN exactly when `s` is a StringNumericLiteral |
| JsNumber.DigitsScanFully | backend/server.js:355 | a run of digits is scanned to its end and holds no exponent mark |
| JsNumber.SignedIntegerIsNumeric | backend/server.js:355 | signed decimal integers such as `0` and `-5` pass the amount check |
| JsNumber.WhiteSpaceIsNumeric | backend/server.js:355 | a string of white space only converts to 0 and passes the number check |
| Lifecycle.StepKeepsInv | backend/server.js:559-1008 | every transition, accepted or refused, keeps the record invariant |
| Lifecycle.StepEvolves | backend/server.js:559-1008 | every transition only moves the record forward |
| Lifecycle.AmountStaysValid | backend/server.js:355-383 | an amount accepted at creation is never changed by later requests and so stays valid |
| Lifecycle.ReleasedRejectsAll | backend/server.js:568-1008 | once the funds are released, approve, release, dispute, resolve and cancel are all refused and change nothing |
| Lifecycle.RunKeepsInv | backend/server.js:519-1024 | any sequence of requests keeps the record invariant, including that released funds had both approvals or a dispute |
| Lifecycle.RunEvolves | backend/server.js:519-1024 | any sequence of requests never resets a flag, never rewrites a creation field and never rewrites a one-shot time stamp |
| Lifecycle.ReleasedIsFinal | backend/server.js:568-1008 | a released record stays exactly as it is under any sequence of requests |
| Lifecycle.ApproveTwiceRejected | backend/server.js:575-588 | a second approval by the same party is rejected with AlreadyApproved and changes nothing |
| Lifecycle.DisputeTwiceRejected | backend/server.js:757-762 | a second dispute is rejected with AlreadyDisputed and changes nothing |
| Lifecycle.ResolveIgnoresApprovals | backend/server.js:840-874 | whether a resolution succeeds does not depend on the approval flags |
| Lifecycle.NoArbiterNeverDisputed | backend/server.js:765-770 | on a record without an arbiter no sequence of requests raises or resolves a dispute |
| Lifecycle.ReleaseExplained | backend/server.js:675-688 | released funds were released either with both approvals and no dispute, or by the arbiter's ruling on a dispute |
| Lifecycle.CancelledEscrowCanBeReleased | backend/server.js:1007-1008 | a cancelled escrow can still be approved by both parties and released, ending both cancelled and released |
| Lifecycle.CancelRepeats | backend/server.js:980-1008 | cancelling a cancelled escrow succeeds again and overwrites `cancelledAt` |
| Queries.Select | backend/server.js:492-494 | the selection holds only matching records of the store and every matching record, and is no longer than the key list |
| Queries.SelectAppend | backend/server.js:921-927 | selection keeps the store's order: selecting over two runs of keys is selecting over each in turn |
| Queries.PendingIsBuyerEscrow | backend/server.js:921-927 | every pending escrow is one of the caller's escrows as buyer |
| Server.Commit | backend/server.js:597-599 | committing a transition changes no key, replaces only that one record when accepted, and nothing when rejected |
| Server.Reply | backend/server.js:602-606 | the response succeeds exactly when the transition is accepted, and otherwise carries its error |
| Server.StoreEvolvesReflexive | backend/server.js:523-535 | a store that a refused request leaves untouched has moved forward trivially (a proof helper for the rejection paths) |
| Server.CommitKeepsValid | backend/server.js:597-1008 | writing back an accepted transition keeps the store invariant and moves every record forward |
| Server.InsertKeepsValid | backend/server.js:430-437 | storing a consistent record under its id keeps the store invariant, appending a new id to the key order |
| Server.EscrowServer.constructor | backend/server.js:19-20 | the server starts with both stores empty and valid |
| Server.EscrowServer.OpenWallet | backend/server.js:77 | opening a wallet maps its session id to the wallet's address |
| Server.EscrowServer.CloseWallet | backend/server.js:305-319 | closing succeeds exactly for a valid session, which is then removed; otherwise nothing changes |
| Server.EscrowServer.CreateEscrow | backend/server.js:337-454 | an unknown session is refused first; otherwise the outcome is that of creation, a success stores the new record under the new id (one more key when it is fresh and at the end of the key order) and a refusal changes nothing; the store stays valid |
| Server.EscrowServer.ApproveEscrow | backend/server.js:519-616 | session, escrow id and role are checked in that order, then the outcome and the new store are those of the approve transition; the store stays valid, every record only moves forward and a refusal changes nothing |
| Server.EscrowServer.ReleaseEscrow | backend/server.js:619-705 | session and escrow id are checked, then the outcome and new store are those of the release transition; the store stays valid and moves forward |
| Server.EscrowServer.RaiseDisputeOn | backend/server.js:708-796 | session and escrow id are checked, then the outcome and new store are those of the dispute transition; the store stays valid and moves forward |
| Server.EscrowServer.ResolveDispute | backend/server.js:799-890 | session, escrow id and deserving party are checked in that order, then the outcome and new store are those of the resolve transition; the store stays valid and moves forward |
| Server.EscrowServer.CancelEscrow | backend/server.js:946-1024 | session and escrow id are checked, then the outcome and new store are those of the cancel transition; the store stays valid and moves forward |
| Server.EscrowServer.GetEscrows | backend/server.js:457-516 | an unknown session, then an invalid role, are refused; otherwise the result holds exactly the stored records whose field for that role is the caller's address |
| Server.EscrowServer.GetPendingEscrows | backend/server.js:893-943 | an unknown session is refused; otherwise the result holds exactly the stored records with the caller as buyer, not released and not approved by the buyer |
| EscManager.Lock | src/escrow/esc_manager.py:5-7 | locking maps the id to its amount with status locked, adds no other key and keeps every other entry |
| EscManager.Release | src/escrow/esc_manager.py:9-13 | releasing marks a present entry released with its amount unchanged, keeps every other entry, and changes nothing for an absent id |
| EscManager.ReleaseIdempotent | src/escrow/esc_manager.py:10-12 | releasing twice leaves the same ledger as releasing once |
| EscManager.LockOverwrites | src/escrow/esc_manager.py:6 | a second lock of the same id replaces the first entirely |
| EscManager.LockAfterRelease | src/escrow/esc_manager.py:6 | locking a released id locks it again with the new amount, as if it had never been released |
| EscManager.LockReleaseCommute | src/escrow/esc_manager.py:6-11 | locking one id and releasing another give the same ledger in either order |
| EscManager.Escrow.constructor | src/escrow/esc_manager.py:2-3 | a new ledger is empty |
| EscManager.Escrow.LockFunds | src/escrow/esc_manager.py:5-7 | locking always reports success and leaves the ledger given by `Lock` |
| EscManager.Escrow.ReleaseFunds | src/escrow/esc_manager.py:9-13 | releasing reports success exactly when the id has an entry, and leaves the ledger given by `Release` |
| EscManager.Escrow.GetStatus | src/escrow/esc_manager.py:15-16 | the lookup returns the stored entry exactly when the id is present, and None otherwise |
| EscManager.Demo | src/escrow/esc_manager.py:19-24 | locking 1500 under `0xabc123` then releasing it shows the entry locked and then released, with the amount unchanged |

## Left out

- The wallet endpoints (create, connect, restore, balance, snapshot, send-transaction) forward to the wallet SDK and are not modelled. `/close-wallet` is modelled as a map delete, and a new session as a map insert (`OpenWallet`); `wallet.close()` is left out.
- The 500 responses from exceptions inside handlers, and the response message texts, are not modelled.
- Each request is taken as atomic. The source reads the record before `await statePromise` and writes it afterwards, so two interleaved requests could act on a stale read; that interleaving is not modelled.
- Request fields are modelled as strings. JSON numbers, booleans, objects or arrays in a request body (which JavaScript would coerce or compare differently) are not modelled.
- Both stores are plain JavaScript objects. An escrow id that names an inherited object property (such as `__proto__`) would pass `escrowStore[escrowId]`, and a wallet id such as `constructor` would pass `!walletStore[walletId]` (for example at backend/server.js:523) and then fail at `wallet.state()` with a 500 response, where the model answers `InvalidWalletId`. Only keys actually stored are modelled.
- The random escrow id, contract address, transaction hashes and time stamps are parameters. Creation does not assume the id is fresh; a repeated id overwrites the record, as the assignment at backend/server.js:430 would.
- Escrows.Inv: the record invariant leaves out the amount's validity. That validity is stated by `Lifecycle.AmountStaysValid` (creation validates the amount, and no request changes it), not by the store invariant.
- EscManager: the amount is modelled as an integer, although the Python code stores whatever value is passed.
- EscManager.Escrow.GetStatus returns the stored entry as a value. In Python it returns the dictionary object itself, so a later `release_funds` also changes what an earlier caller holds; that aliasing is not modelled.
- The frontend, the dashboard, the blockchain connection helper and the Python wallet module are not part of this model.
