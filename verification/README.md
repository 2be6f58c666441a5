# Stealth swap: intents, Dutch auctions and fills

This project models the core of the capstone-stealth-swap Solana program. A
user records an **intent** to swap a given amount of one token for at least
a minimum amount of another, and deposits the input amount into an
**escrow** token account that the intent controls. Anyone can open a Dutch
**auction** for the intent. Its price falls linearly from a start quote
(the minimum plus a ten per cent premium) to the minimum over 120 seconds.
The first solver to **claim** the auction posts a bond of 1,000,000
lamports and fixes the price. A solver **fills** the intent by paying the
output token and receiving the escrowed input, which deactivates the intent
for good.

Every instruction is a pure function from a ledger `State` to a
`Result<State>`. The ledger holds:
- the mints;
- the token accounts, each with a mint, an authority and a u64 balance;
- lamport balances;
- the `Intent` and `AuctionAccount` records, each keyed by address.

An `Err` leaves the ledger untouched, as a failed transaction does.

How the framework and runtime are modelled:
- **Addresses.** Program-derived addresses are modelled as their seed
  tuples, so derivation is injective. Associated token addresses are
  `Ata(owner, mint)`, and only wallet keys can sign.
- **Check order.** Account checks run in the framework's order: the
  declared accounts deserialise in declaration order, then the
  `init`/`init_if_needed` accounts are created, then the `constraint`s run,
  then the handler.
- **Errors.** Failures carry either one of the program's error codes
  (`Errors.ErrorCode`, all 22 variants of `errors.rs`) or a runtime fault:
  a missing or occupied account, a rejected token transfer, a lamport
  shortfall, or an arithmetic-overflow panic.
- **Token transfers.** An SPL token transfer checks the balance, the mint
  and the authority. A transfer to the same account changes nothing, and a
  credit past u64 fails.
- **Arithmetic.** The price computation follows the source's u128 product,
  its floored division, the truncating `as u64` cast and the i64 and u64
  subtractions. Plain `+` and `-` are taken to panic when they leave their
  type's range, as in a build with overflow checks enabled (see Left out).

Module layout:
- **Foundations:** `Prelude`, `Errors`, `Addresses` and `Custody` (token
  and lamport ledgers, with supply sums).
- **Records:** `IntentRecord`, `AuctionRecord` and `Ledger`.
- **Pricing:** `Pricing` (`current_price`).
- **One module per instruction:** `IntentCreation`, `AuctionCreation`,
  `AuctionClaim` and `IntentFill`.
- **Whole program:** `Lifecycle`. It covers:
  - the invariant every reachable state keeps;
  - how records may change across a run of transactions;
  - at most one fill and one claim per intent;
  - conservation of tokens and lamports.
- **The fill finding:** `DrainScenario` and `FillFinding` (see Findings).

`Lifecycle` runs the fill as written. The corrected fill
`IntentFill.FillIntentChecked` succeeds only where the as-written fill
succeeds, and then gives the same state. Every lifecycle result therefore
holds for it too (`Lifecycle.CheckedFillPreservesInv`).

### Behaviour of the code worth knowing
- **One intent per user.** The intent's address is derived from
  ("intent", user) alone. The `id` is stored but is not part of the
  address.
- **No positivity check at creation.** `create_intent` accepts zero input
  and zero minimum amounts. Only `create_auction` rejects them, with
  `InvalidMinReceive` and then `InvalidInputAmount`.
- **Start quote can equal the minimum.** `start_quote` equals `min_quote`
  whenever `min_receive < 10`, so it is not always strictly above it.
- **A second claim gets `AuctionNotStarted`.** The status constraint comes
  before the `claimed_by` constraint, so `AuctionAlreadyClaimed` can never
  be returned from a reachable state.
- **No cancel, expiry or bond-return paths.** Nothing implements them, and
  nothing sets the `Cancelled` or `Ended` status.
- **The fill ignores the auction and pays the signing user.** It does not
  look at the auction, compare the signer with any claim, or release a
  bond. It moves `order.input_amount` rather than the escrow's whole
  balance. It pays the signing `user` rather than the intent's user (see
  Findings).
- **A solver fills at most one intent per output mint.** Every fill opens
  the solver's output escrow at ("escrow", solver, output mint) with the
  intent as token authority. Once that account exists under one intent, a
  later fill by the same solver in the same mint for another intent fails
  when the account is opened, in the next transaction
  (`IntentFill.SolverEscrowBindsFirstIntent`) and in every later one
  (`Lifecycle.SolverEscrowBindsForever`).
- **The escrow's mint is not checked against the intent.** `create_intent`
  never compares `input_token_mint`, which fixes the escrow's mint, or the
  user's token account's mint with `args.input_token`. When they differ,
  a fill that names that escrow fails with `InvalidAccountData`, because
  the fill requires the escrow's mint to be the intent's input token
  (`fill_intent.rs:38-40`). Nothing cancels an intent, so that escrow stays
  locked.
- **Only `create_intent` is dispatched.** `lib.rs` wires up only
  `create_intent`, through a handler name the module does not define. The
  model treats all four handlers as instructions.

## Model

| member | source | states |
|---|---|---|
| Addresses.DerivationInjective | programs/capstone-stealth-swap/src/create_intent.rs:13-38 | The intent, escrow and auction addresses determine their seeds. Different roles never share an address, and no derived address can sign. |
| Addresses.SolverEscrowDistinct | programs/capstone-stealth-swap/src/fill_intent.rs:44-55 | The solver's output escrow address determines its solver and mint. It never equals any party's intent, escrow or auction address, the bond vault, or a wallet key. |
| Custody.Transfer | programs/capstone-stealth-swap/src/create_intent.rs:77-88 | A token transfer succeeds exactly when the source holds the amount, the mints agree, the authority owns the source and the destination does not overflow. Its failures are runtime faults. It keeps every account's mint and owner, and changes balances only by the amount moved out of the source and into the destination. |
| Custody.TransferConservesSupply | programs/capstone-stealth-swap/src/create_intent.rs:77-88 | A successful transfer leaves every mint's total supply unchanged. |
| Custody.LamportTransfer | programs/capstone-stealth-swap/src/claim_auction.rs:51-62 | The system transfer succeeds exactly when the payer covers the amount and the payee does not overflow. It debits the payer and credits the payee by that amount and changes no other balance. |
| Custody.LamportTransferConserves | programs/capstone-stealth-swap/src/claim_auction.rs:51-62 | The total of all lamport balances is unchanged by a transfer. |
| IntentRecord.Deactivate | programs/capstone-stealth-swap/src/fill_intent.rs:123 | Deactivation clears `active` and keeps every term the user committed to. |
| Pricing.DecayAtMostRange | programs/capstone-stealth-swap/src/claim_auction.rs:89-92 | Strictly inside the window, the decay lies between zero and the price range, so the u64 subtraction cannot underflow. |
| Pricing.DecayFitsU128 | programs/capstone-stealth-swap/src/claim_auction.rs:91 | The u128 product of the price range and the elapsed time never overflows. |
| Pricing.PriceMeetsSpec | programs/capstone-stealth-swap/src/claim_auction.rs:78-95 | On an auction with ordered quotes, `current_price` never panics. It returns the division-free reference price: the start quote before the window, the minimum after it, and inside it the start quote less the largest drop `d` with `d * duration <= range * elapsed`. |
| Pricing.DecayedPriceUnique | programs/capstone-stealth-swap/src/claim_auction.rs:87-94 | The reference price is unique, so it fully determines `current_price`. |
| Pricing.PriceInsideWindow | programs/capstone-stealth-swap/src/claim_auction.rs:87-94 | Strictly inside the window, the price is the start quote less the floor of range × elapsed / duration. Neither the truncating cast nor the clamp at the minimum changes it. |
| Pricing.PriceWithinQuotes | programs/capstone-stealth-swap/src/claim_auction.rs:78-95 | The price always lies between the minimum quote and the start quote. |
| Pricing.PriceNonIncreasing | programs/capstone-stealth-swap/src/claim_auction.rs:78-95 | A later time never gives a higher price. |
| Pricing.PriceAtMidpoint | programs/capstone-stealth-swap/src/claim_auction.rs:91-92 | A 5,500,000 to 5,000,000 auction over 120 s prices at 5,250,000 after 60 s. |
| IntentCreation.OpenEscrow | programs/capstone-stealth-swap/src/create_intent.rs:28-39 | `init_if_needed` of the escrow succeeds exactly when the address holds a token account of the input mint under the intent, or holds nothing. It leaves the escrow at ("escrow", user), of the input mint and under the intent's authority, and keeps every existing account and balance. |
| IntentCreation.CreateIntent | programs/capstone-stealth-swap/src/create_intent.rs:9-91 | The only program error is `InsufficientBalance`, returned exactly when the accounts resolve and the user's balance is short. The call succeeds exactly when the accounts resolve, the balance covers the amount, the user owns the source account of the input mint, and the escrow cannot overflow. A success writes an active intent holding the signer and the arguments at a previously free address. It moves exactly the input amount from the user's account to the escrow, which holds the input mint under the intent's authority. Nothing else changes. |
| IntentCreation.CreateIntentConservesSupply | programs/capstone-stealth-swap/src/create_intent.rs:77-88 | Creating an intent leaves every mint's supply unchanged. |
| IntentCreation.OneIntentPerUser | programs/capstone-stealth-swap/src/create_intent.rs:13-22 | Once a user has an intent, every later `create_intent` by that user fails, whatever the id; once the accounts deserialise, it fails with the account-in-use fault. |
| IntentCreation.ZeroAmountsAccepted | programs/capstone-stealth-swap/src/create_intent.rs:57-62 | An intent with zero input amount and zero minimum is accepted whenever the accounts are valid. |
| AuctionCreation.CreateAuction | programs/capstone-stealth-swap/src/create_auction.rs:7-54 | Fails with `IntentInactive`, `InvalidMinReceive`, `InvalidInputAmount` or `MathOverflow` exactly when the first failing check, in that order, is: the intent is active, the minimum is positive, the input amount is positive, and minimum × 110 fits in u64. A success writes, at a previously free ("auction", intent) address, an unclaimed Started auction whose minimum quote is the intent's minimum and whose start quote is that minimum plus the premium. The window is [now, now + 120], the exclusivity window is 30 s, and the bond is 1,000,000. Intents, tokens, lamports and mints are unchanged. |
| AuctionCreation.StartQuoteAddsTenth | programs/capstone-stealth-swap/src/create_auction.rs:41-42 | Minimum × 110 / 100 equals the minimum plus a tenth of it, rounded down. |
| AuctionCreation.StartQuoteVersusMin | programs/capstone-stealth-swap/src/create_auction.rs:41-43 | The start quote is never below the minimum quote, and equals it exactly when the minimum is below 10. |
| AuctionCreation.CreatedAuctionCoherent | programs/capstone-stealth-swap/src/create_auction.rs:40-51 | A new auction satisfies the auction invariant: the claim fields are all unset, the status is Started, the quotes are ordered and the window is non-empty. |
| AuctionCreation.OneAuctionPerIntent | programs/capstone-stealth-swap/src/create_auction.rs:12-21 | A second auction for the same intent fails with the account-in-use fault, at any time. |
| AuctionCreation.StartQuoteExample | programs/capstone-stealth-swap/src/create_auction.rs:41-43 | A minimum of 5,000,000 gives a start quote of 5,500,000, and a minimum of 5 gives 5. |
| AuctionClaim.ClaimAuction | programs/capstone-stealth-swap/src/claim_auction.rs:7-77 | Once both accounts deserialise, each of these errors is returned exactly when the checks before it pass and its own fails, in the order the checks run: `IntentInactive`, then `IntentMismatch`, then `AuctionNotStarted` (for a status other than Started), then `AuctionAlreadyClaimed`, then `AuctionNotStarted` again (for a claim before the start), then `AuctionExpired`. A claim succeeds exactly when the constraints pass, the time lies in [start, end], the price computes without a panic and is at least the minimum quote, the solver covers the bond, the bond vault does not overflow, and the claim's expiry fits in i64. It records solver, price and expiry together with status Awarded, keeps the auction's parameters, moves exactly the bond from the solver to the bond vault, and changes nothing else. |
| AuctionClaim.PriceGuardNeverFires | programs/capstone-stealth-swap/src/claim_auction.rs:48-49 | On an auction with ordered quotes, `PriceBelowMinimum` is never returned, and the recorded price lies within the quotes. |
| AuctionClaim.FirstClaimWins | programs/capstone-stealth-swap/src/claim_auction.rs:17-67 | After one successful claim, the next claim on the auction, by any solver at any time, fails with `AuctionNotStarted`. At most one claim in any run is `Lifecycle.ClaimsAtMostOnce`. |
| AuctionClaim.ClaimAtWindowEdge | programs/capstone-stealth-swap/src/claim_auction.rs:45-49 | A claim one second after the end fails with `AuctionExpired`. A successful claim at the end records the minimum quote. |
| AuctionClaim.ClaimAtEndSucceeds | programs/capstone-stealth-swap/src/claim_auction.rs:45-67 | On an auction with ordered quotes, a claim at the end of the window by a solver that covers the bond succeeds, and records the minimum quote. |
| IntentFill.OpenTokenAccount | programs/capstone-stealth-swap/src/fill_intent.rs:19-33 | `init_if_needed` of a token account succeeds exactly when the address holds an account of that mint and owner, or holds nothing. It fails only with a runtime fault. A success leaves an account of the right mint and owner at the address and keeps every existing account and balance. |
| IntentFill.OpenFillAccounts | programs/capstone-stealth-swap/src/fill_intent.rs:19-56 | The fill's three `init_if_needed` accounts open exactly when each is acceptable: the user's associated account for the output mint, the solver's for the input mint, and the solver's output escrow under the intent. Only these three accounts are added; existing accounts and balances are kept. |
| IntentFill.OpenFillAccountsConservesSupply | programs/capstone-stealth-swap/src/fill_intent.rs:19-56 | Opening the fill's accounts leaves every mint's supply unchanged. |
| IntentFill.FillIntent | programs/capstone-stealth-swap/src/fill_intent.rs:8-125 | Once every account resolves, `InvalidAccountData` is returned exactly when the escrow's mint or authority is wrong. Each handler guard fails exactly when the earlier ones pass and its own condition is violated, in the order `IntentInactive`, `IntentUserMismatch`, `InsufficientOutput`, `InsufficientSolverBalance`, `InsufficientUserEscrow`. A fill succeeds exactly when, beyond these, the intent sits at its own derived address and the token program accepts both transfers: the escrow holds the input mint; the solver's paying account holds the output mint under the solver and, after the escrow's release, covers the receive amount; and neither receiving account overflows. A success: deactivates the intent and nothing else among the records; releases the escrow under the intent's own derived address; moves exactly the order's input amount to the solver's associated account and the receive amount from the solver's own account to the signing user's associated account; opens at most those two accounts and the solver's output escrow, each with the right mint and owner. |
| IntentFill.FillConservesSupply | programs/capstone-stealth-swap/src/fill_intent.rs:101-120 | A fill leaves every mint's supply unchanged. |
| IntentFill.FillOnlyOnce | programs/capstone-stealth-swap/src/fill_intent.rs:82-125 | After a successful fill, every fill of the same intent fails, and with `IntentInactive` once the accounts are valid. |
| IntentFill.SolverEscrowBindsFirstIntent | programs/capstone-stealth-swap/src/fill_intent.rs:44-55 | After a solver fills one intent in an output mint, the next fill by that solver in the same output mint for another intent fails while its accounts are opened. |
| IntentFill.FillIgnoresAuctions | programs/capstone-stealth-swap/src/fill_intent.rs:8-69 | Replacing any auction record does not change the fill's outcome. |
| IntentFill.FillIgnoresOrderTerms | programs/capstone-stealth-swap/src/fill_intent.rs:71-89 | The order's id, minimum and token fields never affect the fill. |
| IntentFill.EscrowKeepsResidue | programs/capstone-stealth-swap/src/fill_intent.rs:82-125 | The escrow loses exactly the order's input amount. Anything beyond it stays in the escrow, while the intent is deactivated. |
| IntentFill.FillPaysAtLeastMinimum | programs/capstone-stealth-swap/src/fill_intent.rs:112-120 | When solver and signing user differ, the signing user's associated account gains at least the intent's minimum. |
| IntentFill.FillIntentChecked | programs/capstone-stealth-swap/src/fill_intent.rs:13-25 | The corrected fill rejects a signing user other than the intent's user (`IntentUserMismatch`). For the intent's own user, it rejects an output mint other than the intent's output token (`IntentOutputTokenMismatch`). Every call that passes both checks, or names no existing intent, returns exactly what the fill as written returns. |
| IntentFill.FillCheckedPaysIntentUser | programs/capstone-stealth-swap/src/fill_intent.rs:13-25 | Under the corrected fill, when the solver is not the intent's user, the intent's own user gains exactly the receive amount, at least the intent's minimum, in the intent's output token. (A self-fill moves nothing.) |
| FillFinding.SolverSigningAsUserTakesEscrow | programs/capstone-stealth-swap/src/fill_intent.rs:13-25 | A solver that signs as both solver and user, paying out of its own associated account for the output mint, fills successfully. The only tokens that move are the escrow's, which go to the solver. The intent's user receives nothing, the intent is spent, and the corrected fill refuses the same call. The same key is both mutable signers and one token account is both `solver_output_ata` and `user_receive_ata`. This assumes the framework version accepts duplicate mutable accounts. |
| FillFinding.AccompliceSigningAsUserTakesEscrow | programs/capstone-stealth-swap/src/fill_intent.rs:13-25 | The same drain with no account appearing twice. The solver signs with an accomplice who is not the intent's user, and pays the accomplice from its own associated account for the output mint. The fill succeeds, the solver gains the escrowed input and the accomplice the receive amount. The intent's user receives nothing, the intent is spent, and the corrected fill refuses the call. |
| FillFinding.DrainScenarioApplies | programs/capstone-stealth-swap/src/fill_intent.rs:13-36 | A concrete ledger and a concrete account list meet every condition of the attack above. |
| Lifecycle.CreateIntentPreservesInv | programs/capstone-stealth-swap/src/create_intent.rs:13-88 | `create_intent` keeps the invariant: every intent sits at ("intent", user); its escrow exists at ("escrow", user) under the intent's authority and, while the intent is active, holds at least its input amount; every auction is well formed. |
| Lifecycle.CreateAuctionPreservesInv | programs/capstone-stealth-swap/src/create_auction.rs:40-51 | `create_auction` keeps the invariant. Every auction sits at ("auction", intent) of an existing intent, with the derived quotes, window, exclusivity and bond. It has the claim group all set or all unset, status Started exactly while unclaimed and Awarded exactly once claimed, and any recorded price and expiry within the terms. |
| Lifecycle.ClaimAuctionPreservesInv | programs/capstone-stealth-swap/src/claim_auction.rs:64-67 | A claim keeps the invariant. |
| Lifecycle.FillIntentPreservesInv | programs/capstone-stealth-swap/src/fill_intent.rs:101-123 | A fill keeps the invariant: no other active intent's escrow is debited. |
| Lifecycle.CheckedFillPreservesInv | programs/capstone-stealth-swap/src/fill_intent.rs:13-25 | The corrected fill keeps the invariant too. |
| Lifecycle.StepPreservesInv | programs/capstone-stealth-swap/src/auction_account.rs:5-26 | Every transaction, successful or rolled back, keeps the invariant. |
| Lifecycle.RunPreservesInv | programs/capstone-stealth-swap/src/auction_account.rs:5-26 | Every state reachable by any sequence of transactions keeps the invariant. |
| Lifecycle.OnlyStartedOrAwarded | programs/capstone-stealth-swap/src/auction_account.rs:13-26 | In a reachable state an auction is Started exactly when unclaimed and is otherwise Awarded. It is never `Cancelled` or `Ended`. |
| Lifecycle.ClaimDeadGuards | programs/capstone-stealth-swap/src/claim_auction.rs:24-49 | In a reachable state a claim never fails with `IntentMismatch`, `AuctionAlreadyClaimed` or `PriceBelowMinimum`. |
| Lifecycle.FillEscrowCovered | programs/capstone-stealth-swap/src/fill_intent.rs:89 | In a reachable state, a fill of an active intent's own input amount from its own escrow never fails with `InsufficientUserEscrow`. |
| Lifecycle.StepEvolves | programs/capstone-stealth-swap/src/intent.rs:5-14 | One transaction never removes a record. It never changes an intent's terms, and never reactivates an intent. It never changes an auction's parameters, and never changes an auction once it has left Started. Mints stay the same, and token accounts are never closed and never change mint or authority. |
| Lifecycle.RunEvolves | programs/capstone-stealth-swap/src/auction_account.rs:5-17 | The same holds between any state and every state a run reaches from it. |
| Lifecycle.SolverEscrowBindsForever | programs/capstone-stealth-swap/src/fill_intent.rs:44-55 | After a solver fills one intent in an output mint, a fill by that solver in the same output mint for another intent fails after any run of further transactions. |
| Lifecycle.FillsAtMostOnce | programs/capstone-stealth-swap/src/fill_intent.rs:85-123 | In any run, at most one fill of an intent succeeds, and none once the intent is spent. |
| Lifecycle.ClaimsAtMostOnce | programs/capstone-stealth-swap/src/claim_auction.rs:25-67 | In any run, at most one claim on an intent's auction succeeds, and none once it is awarded. |
| Lifecycle.StepConservesSupply | programs/capstone-stealth-swap/src/fill_intent.rs:101-120 | No transaction creates or destroys tokens of any mint. |
| Lifecycle.RunConservesSupply | programs/capstone-stealth-swap/src/fill_intent.rs:101-120 | No run creates or destroys tokens of any mint. |
| Lifecycle.StepConservesLamports | programs/capstone-stealth-swap/src/claim_auction.rs:51-62 | No transaction changes the total of lamport balances. |
| Lifecycle.RunConservesLamports | programs/capstone-stealth-swap/src/claim_auction.rs:51-62 | No run changes the total of lamport balances. |

## Left out

- **Rent, payers and account space.** The `payer` of `init` and
  `init_if_needed` and the rent it pays are not modelled. Lamports move
  only by the claim bond.
- **Address hashing and bumps.** A derived address is its seed tuple, so
  derivation cannot collide. The stored `bump` is kept in the record, but
  the fill's signer check is stated as "the intent sits at ("intent",
  user)" rather than by re-hashing seeds with the bump.
- **Rust's overflow-check build setting.** The model takes every plain `+`
  and `-` to panic on overflow, as under `overflow-checks = true`. That
  covers the subtractions of `current_price` (`claim_auction.rs:87-92`),
  `now + 120` in `create_auction` (`create_auction.rs:45`) and
  `now + exclusive_window_secs` in `claim_auction` (`claim_auction.rs:65`).
  No build file is part of this model. In a build that wraps instead, these
  edge cases return wrapped values rather than failing.
- **`emit!` events.** They carry no state.
- **Program dispatch in `lib.rs`.** It is entry-point wiring: all four
  handlers are modelled as instructions.
- **Token-program features the program never uses.** These are delegates,
  frozen accounts, close authority and native SOL wrapping.
- **The clock.** `Clock::get()` becomes the `now` parameter.
- **Concurrency.** The runtime serialises transactions, so a run is a
  sequence of them.
- Pricing.PriceMeetsSpec (and the other price lemmas, all through
  `PriceWellFormed`): these assume the window's length fits in i64, as
  well as that the quotes are ordered. Beyond that length `current_price`
  panics on the subtraction. Every auction the program creates is 120
  seconds long.
- IntentFill.FillPaysAtLeastMinimum: stated weaker than the source. It
  assumes solver and signing user differ. When they are the same account
  the payment is a transfer to itself, which is the finding below.
- IntentFill.FillCheckedPaysIntentUser: stated weaker than the source. It
  assumes the solver is not the intent's user. When the user fills their
  own intent, the payment is a transfer to itself and moves nothing.

## Findings

| source | as written | input that shows it | evidently intended | confidence | as-written member | corrected member |
|---|---|---|---|---|---|---|
| programs/capstone-stealth-swap/src/fill_intent.rs:13-25 | The fill pays `user_receive_ata`, the associated account of the signing `user` for an unchecked `output_token_mint`. Neither the signer nor the mint is compared with the intent's `user` and `output_token`, and `order.user` only has to equal the intent's user as a value. | User `Key(1)` has an active intent for 10 of mint `Key(10)` against at least 5 of mint `Key(11)`, escrowed at ("escrow", `Key(1)`). Solver `Key(2)` holds 5 of `Key(11)` in `Ata(Key(2), Key(11))`. It fills with solver = user = `Key(2)`, pays out of that same account, and names `Key(1)` in the order. The payment is a transfer to itself. The 10 escrowed tokens go to `Ata(Key(2), Key(10))`, `Key(1)` receives nothing, and the intent is deactivated. This input assumes the framework version accepts duplicate mutable accounts. `FillFinding.AccompliceSigningAsUserTakesEscrow` reaches the same result with a second key signing as `user` and no duplicate account. | Only the intent's user may be paid, in the intent's output token. | not executed | FillFinding.SolverSigningAsUserTakesEscrow | IntentFill.FillIntentChecked |
