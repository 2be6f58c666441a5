/** `fill_intent`: a solver settles an intent. The escrow releases
    `order.inputAmount` to the solver and the solver pays `order.receiveAmount`
    of the output mint to the signing user; the intent is then deactivated. */
module IntentFill {
  import opened Prelude
  import opened Errors
  import opened Addresses
  import opened Custody
  import opened IntentRecord
  import opened Ledger

  /** The instruction argument. Only `user`, `receiveAmount` and `inputAmount`
      are read by the handler. */
  datatype OrderConfig = OrderConfig(
    id: u64,
    inputAmount: u64,
    minReceive: u64,
    receiveAmount: u64,
    inputToken: Address,
    outputToken: Address,
    user: Address)

  /** The accounts of one fill that are not derived from others. */
  datatype FillAccounts = FillAccounts(
    solver: Signer,
    user: Signer,
    intent: Address,
    solverOutputAta: Address,
    userInputEscrow: Address,
    inputMint: Address,
    outputMint: Address)
  {
    /** The user's associated account for the output mint: receives the payment. */
    function UserReceiveAta(): Address {
      AssociatedAddress(user, outputMint)
    }

    /** The solver's associated account for the input mint: receives the escrow. */
    function SolverReceiveAta(): Address {
      AssociatedAddress(solver, inputMint)
    }

    /** The account at ("escrow", solver, output mint) with the intent as
        authority. The handler never reads it. */
    function SolverOutputEscrow(): Address {
      SolverEscrowAddress(solver, outputMint)
    }
  }

  /** `init_if_needed` of a token account of `mint` under `owner` at `addr`
      accepts an existing account of that mint and owner, or an address
      holding nothing. */
  predicate Acceptable(s: State, addr: Address, mint: Address, owner: Address) {
    if addr in s.tokens then s.tokens[addr].mint == mint && s.tokens[addr].owner == owner
    else !InUse(s, addr)
  }

  /** `init_if_needed` of a token account of `mint` under `owner` at `addr`,
      applied to the accounts opened so far. */
  function OpenTokenAccount(s: State, tokens: TokenMap, addr: Address, mint: Address, owner: Address)
    : (r: Result<TokenMap>)
    requires s.tokens.Keys <= tokens.Keys
    ensures tokens == s.tokens ==> (r.Ok? <==> Acceptable(s, addr, mint, owner))
    ensures r.Err? ==> r.error.Runtime?
    ensures r.Ok? ==> addr in r.value && r.value[addr].mint == mint && r.value[addr].owner == owner
    ensures r.Ok? ==> r.value.Keys == tokens.Keys + {addr}
    ensures r.Ok? ==> forall a :: a in tokens ==> r.value[a] == tokens[a]
    ensures r.Ok? ==> forall a :: Amount(r.value, a) == Amount(tokens, a)
  {
    if addr in tokens then
      :- RequireRuntime(tokens[addr].mint == mint, ConstraintTokenMint);
      :- RequireRuntime(tokens[addr].owner == owner, ConstraintTokenOwner);
      Ok(tokens)
    else
      :- RequireRuntime(!(addr in s.mints || addr in s.intents || addr in s.auctions), AccountInUse);
      Ok(tokens[addr := TokenAccount(mint, owner, 0)])
  }

  /** Every account the instruction declares deserialises, and the two
      associated accounts and the solver's output escrow can be opened or
      reused. */
  predicate AccountsResolve(s: State, f: FillAccounts) {
    && f.intent in s.intents
    && f.solverOutputAta in s.tokens
    && f.userInputEscrow in s.tokens
    && f.inputMint in s.mints
    && f.outputMint in s.mints
    && Acceptable(s, f.UserReceiveAta(), f.outputMint, f.user)
    && Acceptable(s, f.SolverReceiveAta(), f.inputMint, f.solver)
    && Acceptable(s, f.SolverOutputEscrow(), f.outputMint, f.intent)
  }

  /** The fill's three `init_if_needed` accounts, opened in declaration order:
      the user's associated account for the output mint, the solver's for the
      input mint, and the solver's output escrow under the intent. */
  function OpenFillAccounts(s: State, f: FillAccounts): (r: Result<TokenMap>)
    ensures r.Ok? <==> && Acceptable(s, f.UserReceiveAta(), f.outputMint, f.user)
                       && Acceptable(s, f.SolverReceiveAta(), f.inputMint, f.solver)
                       && Acceptable(s, f.SolverOutputEscrow(), f.outputMint, f.intent)
    ensures r.Err? ==> r.error.Runtime?
    ensures r.Ok? ==> r.value.Keys
                      == s.tokens.Keys + {f.UserReceiveAta(), f.SolverReceiveAta(), f.SolverOutputEscrow()}
    ensures r.Ok? ==> forall a :: a in s.tokens ==> r.value[a] == s.tokens[a]
    ensures r.Ok? ==> forall a :: Amount(r.value, a) == Amount(s.tokens, a)
    ensures r.Ok? ==> && r.value[f.UserReceiveAta()].mint == f.outputMint
                      && r.value[f.UserReceiveAta()].owner == f.user
                      && r.value[f.SolverReceiveAta()].mint == f.inputMint
                      && r.value[f.SolverReceiveAta()].owner == f.solver
                      && r.value[f.SolverOutputEscrow()].mint == f.outputMint
                      && r.value[f.SolverOutputEscrow()].owner == f.intent
  {
    var withUserAta :- OpenTokenAccount(s, s.tokens, f.UserReceiveAta(), f.outputMint, f.user);
    var withAtas :- OpenTokenAccount(s, withUserAta, f.SolverReceiveAta(), f.inputMint, f.solver);
    OpenTokenAccount(s, withAtas, f.SolverOutputEscrow(), f.outputMint, f.intent)
  }

  /** Opening the fill's accounts creates only empty accounts, so no mint's
      supply changes. */
  lemma OpenFillAccountsConservesSupply(s: State, f: FillAccounts, mint: Address)
    requires OpenFillAccounts(s, f).Ok?
    ensures Supply(OpenFillAccounts(s, f).value, mint) == Supply(s.tokens, mint)
  {
    var withUserAta := OpenTokenAccount(s, s.tokens, f.UserReceiveAta(), f.outputMint, f.user).value;
    var withAtas := OpenTokenAccount(s, withUserAta, f.SolverReceiveAta(), f.inputMint, f.solver).value;
    if f.UserReceiveAta() !in s.tokens {
      SupplyOpenEmpty(s.tokens, f.UserReceiveAta(), TokenAccount(f.outputMint, f.user, 0), mint);
    }
    if f.SolverReceiveAta() !in withUserAta {
      SupplyOpenEmpty(withUserAta, f.SolverReceiveAta(), TokenAccount(f.inputMint, f.solver, 0), mint);
    }
    if f.SolverOutputEscrow() !in withAtas {
      SupplyOpenEmpty(withAtas, f.SolverOutputEscrow(), TokenAccount(f.outputMint, f.intent, 0), mint);
    }
  }

  /** Opening the fill's accounts depends only on the token accounts and on
      which addresses are in use, not on the records stored at them. */
  lemma OpenFillAccountsSameAddresses(s: State, s2: State, f: FillAccounts)
    requires s2.tokens == s.tokens && s2.mints == s.mints && s2.intents == s.intents
    requires s2.auctions.Keys == s.auctions.Keys
    ensures OpenFillAccounts(s2, f) == OpenFillAccounts(s, f)
  {
    var first := OpenTokenAccount(s, s.tokens, f.UserReceiveAta(), f.outputMint, f.user);
    assert OpenTokenAccount(s2, s.tokens, f.UserReceiveAta(), f.outputMint, f.user) == first;
    if first.Ok? {
      var second := OpenTokenAccount(s, first.value, f.SolverReceiveAta(), f.inputMint, f.solver);
      assert OpenTokenAccount(s2, first.value, f.SolverReceiveAta(), f.inputMint, f.solver) == second;
      if second.Ok? {
        assert OpenTokenAccount(s2, second.value, f.SolverOutputEscrow(), f.outputMint, f.intent)
            == OpenTokenAccount(s, second.value, f.SolverOutputEscrow(), f.outputMint, f.intent);
      }
    }
  }

  /** The escrow constraints: it holds the intent's input token and the intent is its authority. */
  predicate EscrowMatches(s: State, f: FillAccounts)
    requires AccountsResolve(s, f)
  {
    && s.tokens[f.userInputEscrow].mint == s.intents[f.intent].inputToken
    && s.tokens[f.userInputEscrow].owner == f.intent
  }

  /** The fill reaches the handler's guards. */
  predicate ReachesHandler(s: State, f: FillAccounts) {
    AccountsResolve(s, f) && EscrowMatches(s, f)
  }

  /** The handler's guards that precede the `k`-th one (numbered from 1) all pass. */
  predicate GuardsBefore(s: State, f: FillAccounts, order: OrderConfig, k: nat)
    requires ReachesHandler(s, f)
  {
    var intent := s.intents[f.intent];
    && (k > 1 ==> intent.active)
    && (k > 2 ==> intent.user == order.user)
    && (k > 3 ==> order.receiveAmount >= intent.minReceive)
    && (k > 4 ==> s.tokens[f.solverOutputAta].amount >= order.receiveAmount)
    && (k > 5 ==> s.tokens[f.userInputEscrow].amount >= order.inputAmount)
  }

  /** Net change of the fill's two transfers at address `a`. */
  function Settled(a: Address, f: FillAccounts, order: OrderConfig): int {
    Moved(a, f.userInputEscrow, f.SolverReceiveAta(), order.inputAmount)
    + Moved(a, f.solverOutputAta, f.UserReceiveAta(), order.receiveAmount)
  }

  /** The token program accepts both transfers of the fill: the escrow holds
      the input mint; the solver's paying account holds the output mint under
      the solver's authority and, once the escrow is released, still covers the
      receive amount; and neither receiving account overflows. */
  predicate TransfersAllowed(s: State, f: FillAccounts, order: OrderConfig)
    requires f.userInputEscrow in s.tokens && f.solverOutputAta in s.tokens
  {
    var escrow := s.tokens[f.userInputEscrow];
    var paying := s.tokens[f.solverOutputAta];
    && escrow.mint == f.inputMint
    && paying.mint == f.outputMint
    && paying.owner == f.solver
    && Amount(s.tokens, f.SolverReceiveAta()) + order.inputAmount < U64_LIMIT
    && paying.amount + Moved(f.solverOutputAta, f.userInputEscrow, f.SolverReceiveAta(), order.inputAmount)
       >= order.receiveAmount
    && (f.solverOutputAta != f.UserReceiveAta() ==>
          Amount(s.tokens, f.UserReceiveAta())
          + Moved(f.UserReceiveAta(), f.userInputEscrow, f.SolverReceiveAta(), order.inputAmount)
          + order.receiveAmount < U64_LIMIT)
  }

  /** `FillIntent` account checks and `fill_intent_handler`. */
  function FillIntent(s: State, f: FillAccounts, order: OrderConfig): (r: Result<State>)
    ensures r == Err(Program(InvalidAccountData)) <==> AccountsResolve(s, f) && !EscrowMatches(s, f)
    // the handler's guards, first failure wins
    ensures r == Err(Program(IntentInactive))
        <==> ReachesHandler(s, f) && GuardsBefore(s, f, order, 1) && !s.intents[f.intent].active
    ensures r == Err(Program(IntentUserMismatch))
        <==> ReachesHandler(s, f) && GuardsBefore(s, f, order, 2) && s.intents[f.intent].user != order.user
    ensures r == Err(Program(InsufficientOutput))
        <==> ReachesHandler(s, f) && GuardsBefore(s, f, order, 3)
             && order.receiveAmount < s.intents[f.intent].minReceive
    ensures r == Err(Program(InsufficientSolverBalance))
        <==> ReachesHandler(s, f) && GuardsBefore(s, f, order, 4)
             && s.tokens[f.solverOutputAta].amount < order.receiveAmount
    ensures r == Err(Program(InsufficientUserEscrow))
        <==> ReachesHandler(s, f) && GuardsBefore(s, f, order, 5)
             && s.tokens[f.userInputEscrow].amount < order.inputAmount
    // a fill succeeds exactly when every guard passes, the intent can sign for
    // its escrow, and the token program accepts both transfers
    ensures r.Ok? <==> && ReachesHandler(s, f) && GuardsBefore(s, f, order, 6)
                       && f.intent == IntentAddress(s.intents[f.intent].user)
                       && TransfersAllowed(s, f, order)
    // the solver authorises the payment out of its own account
    ensures r.Ok? ==> s.tokens[f.solverOutputAta].owner == f.solver
    // the escrow is released under the intent's own derived address only
    ensures r.Ok? ==> f.intent == IntentAddress(s.intents[f.intent].user)
    // deactivation is the only change to the program's records
    ensures r.Ok? ==> r.value.intents == s.intents[f.intent := Deactivate(s.intents[f.intent])]
    ensures r.Ok? ==> r.value.auctions == s.auctions && r.value.lamports == s.lamports && r.value.mints == s.mints
    // the two transfers, and nothing else, move tokens
    ensures r.Ok? ==> forall a :: Amount(r.value.tokens, a) == Amount(s.tokens, a) + Settled(a, f, order)
    ensures r.Ok? ==> r.value.tokens.Keys
                      == s.tokens.Keys + {f.UserReceiveAta(), f.SolverReceiveAta(), f.SolverOutputEscrow()}
    ensures r.Ok? ==> forall a :: a in s.tokens ==>
              r.value.tokens[a].mint == s.tokens[a].mint && r.value.tokens[a].owner == s.tokens[a].owner
    ensures r.Ok? ==> r.value.tokens[f.UserReceiveAta()].mint == f.outputMint
                      && r.value.tokens[f.UserReceiveAta()].owner == f.user
    ensures r.Ok? ==> r.value.tokens[f.SolverReceiveAta()].mint == f.inputMint
                      && r.value.tokens[f.SolverReceiveAta()].owner == f.solver
    ensures r.Ok? ==> r.value.tokens[f.SolverOutputEscrow()].mint == f.outputMint
                      && r.value.tokens[f.SolverOutputEscrow()].owner == f.intent
  {
    var solverAta, userAta := f.SolverReceiveAta(), f.UserReceiveAta();
    // deserialisation of the declared accounts
    :- RequireRuntime(f.intent in s.intents, AccountNotInitialized);
    :- RequireRuntime(f.solverOutputAta in s.tokens, AccountNotInitialized);
    :- RequireRuntime(f.userInputEscrow in s.tokens, AccountNotInitialized);
    :- RequireRuntime(f.inputMint in s.mints && f.outputMint in s.mints, AccountNotInitialized);
    // `init_if_needed` of the two associated accounts and the solver's output escrow
    var withAccounts :- OpenFillAccounts(s, f);
    // the escrow's constraints
    var intent := s.intents[f.intent];
    var escrow := s.tokens[f.userInputEscrow];
    :- Require(escrow.mint == intent.inputToken, InvalidAccountData);
    :- Require(escrow.owner == f.intent, InvalidAccountData);
    // the handler
    :- Require(intent.active, IntentInactive);
    :- Require(intent.user == order.user, IntentUserMismatch);
    :- Require(order.receiveAmount >= intent.minReceive, InsufficientOutput);
    :- Require(s.tokens[f.solverOutputAta].amount >= order.receiveAmount, InsufficientSolverBalance);
    :- Require(escrow.amount >= order.inputAmount, InsufficientUserEscrow);
    // the intent signs with seeds ("intent", intent.user, intent.bump)
    :- RequireRuntime(f.intent == IntentAddress(intent.user), MissingSigner);
    var released :- Transfer(withAccounts, f.userInputEscrow, solverAta, f.intent, order.inputAmount);
    var paid :- Transfer(released, f.solverOutputAta, userAta, f.solver, order.receiveAmount);
    Ok(s.(tokens := paid, intents := s.intents[f.intent := Deactivate(intent)]))
  }

  /** A fill neither creates nor destroys any mint's tokens. */
  lemma FillConservesSupply(s: State, f: FillAccounts, order: OrderConfig, mint: Address)
    requires FillIntent(s, f, order).Ok?
    ensures Supply(FillIntent(s, f, order).value.tokens, mint) == Supply(s.tokens, mint)
  {
    var withAccounts := OpenFillAccounts(s, f).value;
    OpenFillAccountsConservesSupply(s, f, mint);
    var released := Transfer(withAccounts, f.userInputEscrow, f.SolverReceiveAta(), f.intent, order.inputAmount).value;
    TransferConservesSupply(withAccounts, f.userInputEscrow, f.SolverReceiveAta(), f.intent, order.inputAmount, mint);
    TransferConservesSupply(released, f.solverOutputAta, f.UserReceiveAta(), f.solver, order.receiveAmount, mint);
  }

  /** Exactly-once fill: after a fill succeeds, no fill of the same intent can
      succeed, and one whose accounts pass validation fails with IntentInactive. */
  lemma FillOnlyOnce(s: State, f: FillAccounts, order: OrderConfig, g: FillAccounts, next: OrderConfig)
    requires FillIntent(s, f, order).Ok?
    requires g.intent == f.intent
    ensures FillIntent(FillIntent(s, f, order).value, g, next).Err?
    ensures ReachesHandler(FillIntent(s, f, order).value, g) ==>
              FillIntent(FillIntent(s, f, order).value, g, next) == Err(Program(IntentInactive))
  {
  }

  /** The solver's output escrow at ("escrow", solver, output mint) is
      opened under the first intent the solver fills in that mint and keeps
      that authority, so every later fill by the same solver in the same
      output mint, for any other intent, fails while its accounts are opened. */
  lemma SolverEscrowBindsFirstIntent(s: State, f: FillAccounts, order: OrderConfig,
                                     g: FillAccounts, next: OrderConfig)
    requires FillIntent(s, f, order).Ok?
    requires g.solver == f.solver && g.outputMint == f.outputMint && g.intent != f.intent
    ensures !AccountsResolve(FillIntent(s, f, order).value, g)
    ensures FillIntent(FillIntent(s, f, order).value, g, next).Err?
  {
  }

  /** The fill never looks at an auction: replacing any auction record, for
      instance an unclaimed one by one awarded to a rival, changes nothing
      about the outcome. */
  lemma FillIgnoresAuctions(s: State, f: FillAccounts, order: OrderConfig, k: Address, v: AuctionRecord.AuctionAccount)
    requires k in s.auctions
    ensures var s2 := s.(auctions := s.auctions[k := v]);
            && FillIntent(s2, f, order).Ok? == FillIntent(s, f, order).Ok?
            && (FillIntent(s, f, order).Err? ==> FillIntent(s2, f, order) == FillIntent(s, f, order))
            && (FillIntent(s, f, order).Ok? ==>
                  FillIntent(s2, f, order).value == FillIntent(s, f, order).value.(auctions := s2.auctions))
  {
    var s2 := s.(auctions := s.auctions[k := v]);
    assert s2.auctions.Keys == s.auctions.Keys;
    OpenFillAccountsSameAddresses(s, s2, f);
  }

  /** Only the user, the receive amount and the input amount of the order are
      read: its id, minimum and tokens are never compared with the intent. */
  lemma FillIgnoresOrderTerms(s: State, f: FillAccounts, order: OrderConfig,
                              id: u64, minReceive: u64, inputToken: Address, outputToken: Address)
    ensures FillIntent(s, f, order)
         == FillIntent(s, f, order.(id := id, minReceive := minReceive,
                                    inputToken := inputToken, outputToken := outputToken))
  {
  }

  /** `order.inputAmount` is not compared with the intent's input amount: the
      escrow releases exactly the order's amount, and whatever it held beyond
      that stays in it while the intent is deactivated for good. */
  lemma EscrowKeepsResidue(s: State, f: FillAccounts, order: OrderConfig)
    requires FillIntent(s, f, order).Ok?
    ensures var r := FillIntent(s, f, order).value;
            && Amount(r.tokens, f.userInputEscrow) == Amount(s.tokens, f.userInputEscrow) - order.inputAmount
            && !r.intents[f.intent].active
  {
    var r := FillIntent(s, f, order).value;
    assert f.intent.Pda?;
    assert r.tokens[f.SolverReceiveAta()].owner == f.solver;
    assert r.tokens[f.UserReceiveAta()].owner == f.user;
  }

  /** The signing user's associated account for the output mint receives at
      least the intent's minimum. */
  lemma FillPaysAtLeastMinimum(s: State, f: FillAccounts, order: OrderConfig)
    requires FillIntent(s, f, order).Ok?
    requires f.solver != f.user
    ensures var r := FillIntent(s, f, order).value;
            Amount(r.tokens, f.UserReceiveAta()) >= Amount(s.tokens, f.UserReceiveAta()) + s.intents[f.intent].minReceive
  {
    var r := FillIntent(s, f, order).value;
    assert r.tokens[f.UserReceiveAta()].owner == f.user;
    assert s.tokens[f.solverOutputAta].owner == f.solver;
  }

  // ---------------------------------------------------------------------------
  // The recipient of the payment (see also module FillFinding)

  /** The fill with the two missing checks: the signing user must be the
      intent's user and the output mint the intent's output token, using the
      error codes the program already declares for these mismatches. */
  function FillIntentChecked(s: State, f: FillAccounts, order: OrderConfig): (r: Result<State>)
    ensures r.Ok? ==> r == FillIntent(s, f, order)
    // a fill that passes both added checks behaves exactly as the fill as written
    ensures (|| f.intent !in s.intents
             || (f.user == s.intents[f.intent].user && f.outputMint == s.intents[f.intent].outputToken))
            ==> r == FillIntent(s, f, order)
    ensures f.intent in s.intents && f.user != s.intents[f.intent].user ==> r == Err(Program(IntentUserMismatch))
    ensures (f.intent in s.intents && f.user == s.intents[f.intent].user
             && f.outputMint != s.intents[f.intent].outputToken) ==> r == Err(Program(IntentOutputTokenMismatch))
  {
    if f.intent in s.intents && f.user != s.intents[f.intent].user then Err(Program(IntentUserMismatch))
    else if f.intent in s.intents && f.outputMint != s.intents[f.intent].outputToken then
      Err(Program(IntentOutputTokenMismatch))
    else FillIntent(s, f, order)
  }

  /** With the checks in place, the intent's own user receives, in the intent's
      own output token, at least the intent's minimum. */
  lemma FillCheckedPaysIntentUser(s: State, f: FillAccounts, order: OrderConfig)
    requires FillIntentChecked(s, f, order).Ok?
    requires f.solver != s.intents[f.intent].user
    ensures var intent := s.intents[f.intent];
            var r := FillIntentChecked(s, f, order).value;
            var ata := AssociatedAddress(intent.user, intent.outputToken);
            && f.UserReceiveAta() == ata
            && Amount(r.tokens, ata) == Amount(s.tokens, ata) + order.receiveAmount
            && order.receiveAmount >= intent.minReceive
  {
    var r := FillIntent(s, f, order).value;
    assert r.tokens[f.UserReceiveAta()].owner == f.user;
    assert s.tokens[f.solverOutputAta].owner == f.solver;
  }
}
