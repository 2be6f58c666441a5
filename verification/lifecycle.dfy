/** The program as a whole: the four instructions as one transition relation
    over the ledger, the invariant every reachable state keeps, and what a
    run of transactions can and cannot do. A failed transaction changes
    nothing, as on the runtime. */
module Lifecycle {
  import opened Prelude
  import opened Errors
  import opened Addresses
  import opened Custody
  import opened IntentRecord
  import opened AuctionRecord
  import opened Ledger
  import opened Pricing
  import opened IntentCreation
  import opened AuctionCreation
  import opened AuctionClaim
  import opened IntentFill

  /** One transaction: an instruction with its accounts and arguments. */
  datatype Action =
    | CreateIntentAction(user: Signer, userTokenAccount: Address, inputMint: Address,
                         args: CreateIntentArgs, id: u64, bump: u8)
    | CreateAuctionAction(intent: Address, now: i64)
    | ClaimAuctionAction(solver: Signer, intent: Address, now: i64)
    | FillIntentAction(accounts: FillAccounts, order: OrderConfig)

  /** The program's instruction dispatch. */
  function Apply(s: State, act: Action): Result<State> {
    match act
    case CreateIntentAction(user, userTokenAccount, inputMint, args, id, bump) =>
      CreateIntent(s, user, userTokenAccount, inputMint, args, id, bump)
    case CreateAuctionAction(intent, now) => CreateAuction(s, intent, now)
    case ClaimAuctionAction(solver, intent, now) => ClaimAuction(s, solver, intent, now)
    case FillIntentAction(accounts, order) => FillIntent(s, accounts, order)
  }

  /** The ledger after one transaction: a failed one is rolled back. */
  function Next(s: State, act: Action): State {
    var r := Apply(s, act);
    if r.Ok? then r.value else s
  }

  /** The ledger after a sequence of transactions. */
  function Run(s: State, acts: seq<Action>): State
    decreases |acts|
  {
    if |acts| == 0 then s else Run(Next(s, acts[0]), acts[1..])
  }

  // ---------------------------------------------------------------------------
  // The invariant

  /** An intent sits at the address derived from its user, and its escrow at
      ("escrow", user) exists with the intent as authority; while the intent
      is active the escrow covers its input amount. The escrow's mint is not
      tied to the intent's input token: `create_intent` never compares them. */
  predicate IntentCustodied(s: State, i: Address)
    requires i in s.intents
  {
    var intent := s.intents[i];
    var e := EscrowAddress(intent.user);
    && i == IntentAddress(intent.user)
    && e in s.tokens
    && s.tokens[e].owner == i
    && (intent.active ==> s.tokens[e].amount >= intent.inputAmount)
  }

  /** An auction sits at ("auction", intent) of an existing intent, carries
      the parameters `create_auction` derives from that intent, and is
      coherent. */
  predicate AuctionWellFormed(s: State, k: Address)
    requires k in s.auctions
  {
    var a := s.auctions[k];
    && a.intent in s.intents
    && k == AuctionAddress(a.intent)
    && a.minQuote == s.intents[a.intent].minReceive
    && a.minQuote > 0
    && a.startQuote == StartQuote(a.minQuote)
    && a.endTime == a.startTime + AUCTION_DURATION_SECS
    && a.exclusiveWindowSecs == EXCLUSIVE_WINDOW_SECS
    && a.bondAmount == BOND_AMOUNT
    && Coherent(a)
  }

  predicate Inv(s: State) {
    && (forall i | i in s.intents :: IntentCustodied(s, i))
    && (forall k | k in s.auctions :: AuctionWellFormed(s, k))
  }

  /** The empty ledger satisfies the invariant. */
  lemma InvInitially(mints: set<Address>, tokens: TokenMap, lamports: LamportMap)
    ensures Inv(State(mints, tokens, lamports, map[], map[]))
  {
  }

  lemma CreateIntentPreservesInv(s: State, user: Signer, userTokenAccount: Address, inputMint: Address,
                                 args: CreateIntentArgs, id: u64, bump: u8)
    requires Inv(s)
    requires CreateIntent(s, user, userTokenAccount, inputMint, args, id, bump).Ok?
    ensures Inv(CreateIntent(s, user, userTokenAccount, inputMint, args, id, bump).value)
  {
    var r := CreateIntent(s, user, userTokenAccount, inputMint, args, id, bump).value;
    var created := IntentAddress(user);
    forall i | i in r.intents
      ensures IntentCustodied(r, i)
    {
      var e := EscrowAddress(r.intents[i].user);
      if i == created {
        assert e == EscrowAddress(user);
        assert userTokenAccount != e by {
          if e in s.tokens { assert s.tokens[e].owner == created; }
        }
        assert Amount(r.tokens, e) == Amount(s.tokens, e) + args.inputAmount;
      } else {
        assert IntentCustodied(s, i);
        assert s.tokens[e].owner == i && i.Pda?;
        assert userTokenAccount != e;
        assert Amount(r.tokens, e) >= Amount(s.tokens, e);
      }
    }
    forall k | k in r.auctions
      ensures AuctionWellFormed(r, k)
    {
      assert AuctionWellFormed(s, k);
    }
  }

  lemma CreateAuctionPreservesInv(s: State, intent: Address, now: i64)
    requires Inv(s)
    requires CreateAuction(s, intent, now).Ok?
    ensures Inv(CreateAuction(s, intent, now).value)
  {
    var r := CreateAuction(s, intent, now).value;
    CreatedAuctionCoherent(s, intent, now);
    forall i | i in r.intents
      ensures IntentCustodied(r, i)
    {
      assert IntentCustodied(s, i);
    }
    forall k | k in r.auctions
      ensures AuctionWellFormed(r, k)
    {
      if k != AuctionAddress(intent) {
        assert AuctionWellFormed(s, k);
      }
    }
  }

  lemma ClaimAuctionPreservesInv(s: State, solver: Signer, intent: Address, now: i64)
    requires Inv(s)
    requires ClaimAuction(s, solver, intent, now).Ok?
    ensures Inv(ClaimAuction(s, solver, intent, now).value)
  {
    var r := ClaimAuction(s, solver, intent, now).value;
    var key := AuctionAddress(intent);
    var before := s.auctions[key];
    var after := r.auctions[key];
    assert AuctionWellFormed(s, key);
    PriceWithinQuotes(before, now);
    assert Coherent(after);
    forall i | i in r.intents
      ensures IntentCustodied(r, i)
    {
      assert IntentCustodied(s, i);
    }
    forall k | k in r.auctions
      ensures AuctionWellFormed(r, k)
    {
      assert AuctionWellFormed(s, k);
    }
  }

  lemma FillIntentPreservesInv(s: State, f: FillAccounts, order: OrderConfig)
    requires Inv(s)
    requires FillIntent(s, f, order).Ok?
    ensures Inv(FillIntent(s, f, order).value)
  {
    var r := FillIntent(s, f, order).value;
    forall i | i in r.intents
      ensures IntentCustodied(r, i)
    {
      assert IntentCustodied(s, i);
      var e := EscrowAddress(r.intents[i].user);
      if i != f.intent {
        assert s.tokens[e].owner == i && i.Pda?;
        assert e != f.userInputEscrow;
        assert e != f.solverOutputAta;
        assert Amount(r.tokens, e) >= Amount(s.tokens, e);
      }
    }
    forall k | k in r.auctions
      ensures AuctionWellFormed(r, k)
    {
      assert AuctionWellFormed(s, k);
    }
  }

  /** Every transaction, successful or rolled back, keeps the invariant. */
  lemma StepPreservesInv(s: State, act: Action)
    requires Inv(s)
    ensures Inv(Next(s, act))
  {
    if Apply(s, act).Ok? {
      match act
      case CreateIntentAction(user, userTokenAccount, inputMint, args, id, bump) =>
        CreateIntentPreservesInv(s, user, userTokenAccount, inputMint, args, id, bump);
      case CreateAuctionAction(intent, now) => CreateAuctionPreservesInv(s, intent, now);
      case ClaimAuctionAction(solver, intent, now) => ClaimAuctionPreservesInv(s, solver, intent, now);
      case FillIntentAction(accounts, order) => FillIntentPreservesInv(s, accounts, order);
    }
  }

  /** Every state reachable from one satisfying the invariant satisfies it. */
  lemma {:induction false} RunPreservesInv(s: State, acts: seq<Action>)
    requires Inv(s)
    ensures Inv(Run(s, acts))
    decreases |acts|
  {
    if |acts| > 0 {
      StepPreservesInv(s, acts[0]);
      RunPreservesInv(Next(s, acts[0]), acts[1..]);
    }
  }

  /** The corrected fill keeps the invariant too: whatever it lets through,
      the as-written fill does identically. */
  lemma CheckedFillPreservesInv(s: State, f: FillAccounts, order: OrderConfig)
    requires Inv(s)
    requires FillIntentChecked(s, f, order).Ok?
    ensures Inv(FillIntentChecked(s, f, order).value)
  {
    FillIntentPreservesInv(s, f, order);
  }

  // ---------------------------------------------------------------------------
  // Consequences of the invariant

  /** `Cancelled` and `Ended` are declared but never reached: in a reachable
      state every auction is Started and unclaimed, or Awarded and claimed. */
  lemma OnlyStartedOrAwarded(s: State, k: Address)
    requires Inv(s) && k in s.auctions
    ensures s.auctions[k].status == Started || s.auctions[k].status == Awarded
    ensures s.auctions[k].status == Started <==> s.auctions[k].claimedBy.None?
  {
    assert AuctionWellFormed(s, k);
  }

  /** In a reachable state the claim's `IntentMismatch` and
      `AuctionAlreadyClaimed` constraints and its `PriceBelowMinimum` guard
      never fire: the first because auctions sit at their intent's address,
      the second because an auction is Started exactly while unclaimed. */
  lemma ClaimDeadGuards(s: State, solver: Signer, intent: Address, now: i64)
    requires Inv(s)
    ensures ClaimAuction(s, solver, intent, now) != Err(Program(IntentMismatch))
    ensures ClaimAuction(s, solver, intent, now) != Err(Program(AuctionAlreadyClaimed))
    ensures ClaimAuction(s, solver, intent, now) != Err(Program(PriceBelowMinimum))
  {
    var key := AuctionAddress(intent);
    if intent in s.intents && key in s.auctions {
      assert AuctionWellFormed(s, key);
      DerivationInjective(intent, s.auctions[key].intent);
      PriceGuardNeverFires(s, solver, intent, now);
    }
  }

  /** In a reachable state the escrow of an active intent covers a fill of
      the intent's own input amount: `InsufficientUserEscrow` cannot fire for
      such an order. */
  lemma FillEscrowCovered(s: State, f: FillAccounts, order: OrderConfig)
    requires Inv(s)
    requires f.intent in s.intents && s.intents[f.intent].active
    requires f.userInputEscrow == EscrowAddress(s.intents[f.intent].user)
    requires order.inputAmount == s.intents[f.intent].inputAmount
    ensures FillIntent(s, f, order) != Err(Program(InsufficientUserEscrow))
  {
    assert IntentCustodied(s, f.intent);
  }

  // ---------------------------------------------------------------------------
  // How records evolve

  /** What a later state keeps of an earlier one: no record disappears, an
      intent's terms never change and it is never reactivated, an auction's
      parameters never change and an auction that has left Started never
      changes again; mints stay, and token accounts are never closed and
      never change mint or authority. */
  predicate Evolves(s: State, t: State) {
    && s.mints == t.mints
    && s.tokens.Keys <= t.tokens.Keys
    && (forall a | a in s.tokens ::
          t.tokens[a].mint == s.tokens[a].mint && t.tokens[a].owner == s.tokens[a].owner)
    && (forall i | i in s.intents ::
          i in t.intents && SameTerms(s.intents[i], t.intents[i])
          && (t.intents[i].active ==> s.intents[i].active))
    && (forall k | k in s.auctions ::
          k in t.auctions && SameParameters(s.auctions[k], t.auctions[k])
          && (s.auctions[k].status != Started ==> t.auctions[k] == s.auctions[k]))
  }

  lemma StepEvolves(s: State, act: Action)
    ensures Evolves(s, Next(s, act))
  {
    var t := Next(s, act);
    if Apply(s, act).Ok? {
      match act
      case CreateIntentAction(user, userTokenAccount, inputMint, args, id, bump) =>
        assert t.intents.Keys == s.intents.Keys + {IntentAddress(user)};
      case CreateAuctionAction(intent, now) =>
      case ClaimAuctionAction(solver, intent, now) =>
        assert s.auctions[AuctionAddress(intent)].status == Started;
      case FillIntentAction(accounts, order) =>
    }
  }

  lemma {:induction false} RunEvolves(s: State, acts: seq<Action>)
    ensures Evolves(s, Run(s, acts))
    decreases |acts|
  {
    if |acts| > 0 {
      var t := Next(s, acts[0]);
      StepEvolves(s, acts[0]);
      RunEvolves(t, acts[1..]);
      var u := Run(t, acts[1..]);
      forall i | i in s.intents
        ensures i in u.intents && SameTerms(s.intents[i], u.intents[i])
                && (u.intents[i].active ==> s.intents[i].active)
      {
        assert i in t.intents;
      }
      forall k | k in s.auctions
        ensures k in u.auctions && SameParameters(s.auctions[k], u.auctions[k])
                && (s.auctions[k].status != Started ==> u.auctions[k] == s.auctions[k])
      {
        assert k in t.auctions;
      }
    }
  }

  /** The solver's output escrow keeps the authority of the first intent the
      solver fills in that output mint, so after that fill no later
      transaction, in any run, can fill another intent with the same solver
      and output mint. */
  lemma SolverEscrowBindsForever(s: State, f: FillAccounts, order: OrderConfig, acts: seq<Action>,
                                 g: FillAccounts, next: OrderConfig)
    requires FillIntent(s, f, order).Ok?
    requires g.solver == f.solver && g.outputMint == f.outputMint && g.intent != f.intent
    ensures FillIntent(Run(FillIntent(s, f, order).value, acts), g, next).Err?
  {
    var r := FillIntent(s, f, order).value;
    RunEvolves(r, acts);
    var u := Run(r, acts);
    assert f.SolverOutputEscrow() in r.tokens && r.tokens[f.SolverOutputEscrow()].owner == f.intent;
    assert g.SolverOutputEscrow() == f.SolverOutputEscrow();
    assert !Acceptable(u, g.SolverOutputEscrow(), g.outputMint, g.intent);
  }

  // ---------------------------------------------------------------------------
  // At most once

  /** The intent has been filled or was created spent. */
  predicate Spent(s: State, i: Address) {
    i in s.intents && !s.intents[i].active
  }

  /** The successful fills of intent `i` in a run. */
  function Fills(s: State, acts: seq<Action>, i: Address): nat
    decreases |acts|
  {
    if |acts| == 0 then 0
    else
      var hit := acts[0].FillIntentAction? && acts[0].accounts.intent == i && Apply(s, acts[0]).Ok?;
      (if hit then 1 else 0) + Fills(Next(s, acts[0]), acts[1..], i)
  }

  /** However the transactions are chosen, ordered or repeated, an intent is
      filled at most once, and never once it is spent. */
  lemma {:induction false} FillsAtMostOnce(s: State, acts: seq<Action>, i: Address)
    ensures Fills(s, acts, i) <= 1
    ensures Spent(s, i) ==> Fills(s, acts, i) == 0
    decreases |acts|
  {
    if |acts| > 0 {
      var t := Next(s, acts[0]);
      StepEvolves(s, acts[0]);
      FillsAtMostOnce(t, acts[1..], i);
      if acts[0].FillIntentAction? && acts[0].accounts.intent == i && Apply(s, acts[0]).Ok? {
        assert Spent(t, i);
      }
    }
  }

  /** The auction of intent `i` has been awarded. */
  predicate Claimed(s: State, i: Address) {
    AuctionAddress(i) in s.auctions && s.auctions[AuctionAddress(i)].status != Started
  }

  /** The successful claims on the auction of intent `i` in a run. */
  function Claims(s: State, acts: seq<Action>, i: Address): nat
    decreases |acts|
  {
    if |acts| == 0 then 0
    else
      var hit := acts[0].ClaimAuctionAction? && acts[0].intent == i && Apply(s, acts[0]).Ok?;
      (if hit then 1 else 0) + Claims(Next(s, acts[0]), acts[1..], i)
  }

  /** An auction is awarded at most once in any run, and never again once awarded. */
  lemma {:induction false} ClaimsAtMostOnce(s: State, acts: seq<Action>, i: Address)
    ensures Claims(s, acts, i) <= 1
    ensures Claimed(s, i) ==> Claims(s, acts, i) == 0
    decreases |acts|
  {
    if |acts| > 0 {
      var t := Next(s, acts[0]);
      StepEvolves(s, acts[0]);
      ClaimsAtMostOnce(t, acts[1..], i);
      if acts[0].ClaimAuctionAction? && acts[0].intent == i && Apply(s, acts[0]).Ok? {
        assert Claimed(t, i);
      }
    }
  }

  // ---------------------------------------------------------------------------
  // Conservation

  /** No transaction creates or destroys tokens of any mint. */
  lemma StepConservesSupply(s: State, act: Action, mint: Address)
    ensures Supply(Next(s, act).tokens, mint) == Supply(s.tokens, mint)
  {
    if Apply(s, act).Ok? {
      match act
      case CreateIntentAction(user, userTokenAccount, inputMint, args, id, bump) =>
        CreateIntentConservesSupply(s, user, userTokenAccount, inputMint, args, id, bump, mint);
      case CreateAuctionAction(intent, now) =>
      case ClaimAuctionAction(solver, intent, now) =>
      case FillIntentAction(accounts, order) => FillConservesSupply(s, accounts, order, mint);
    }
  }

  lemma {:induction false} RunConservesSupply(s: State, acts: seq<Action>, mint: Address)
    ensures Supply(Run(s, acts).tokens, mint) == Supply(s.tokens, mint)
    decreases |acts|
  {
    if |acts| > 0 {
      StepConservesSupply(s, acts[0], mint);
      RunConservesSupply(Next(s, acts[0]), acts[1..], mint);
    }
  }

  /** No transaction creates or destroys lamports: the only lamport movement
      modelled is the bond, from the solver to the bond vault. */
  lemma StepConservesLamports(s: State, act: Action)
    ensures TotalLamports(Next(s, act).lamports) == TotalLamports(s.lamports)
  {
    if Apply(s, act).Ok? && act.ClaimAuctionAction? {
      var bond := s.auctions[AuctionAddress(act.intent)].bondAmount;
      LamportTransferConserves(s.lamports, act.solver, BondVaultAddress(), bond);
    }
  }

  lemma {:induction false} RunConservesLamports(s: State, acts: seq<Action>)
    ensures TotalLamports(Run(s, acts).lamports) == TotalLamports(s.lamports)
    decreases |acts|
  {
    if |acts| > 0 {
      StepConservesLamports(s, acts[0]);
      RunConservesLamports(Next(s, acts[0]), acts[1..]);
    }
  }
}
