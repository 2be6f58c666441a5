/** A fill in which the solver also signs as the user: the scenario of
    `FillFinding.SolverSigningAsUserTakesEscrow`, with named accounts. */
module DrainScenario {
  import opened Addresses
  import opened Custody
  import opened IntentRecord
  import opened Ledger
  import opened IntentFill

  /** User `Key(1)` has an active intent for 10 of mint `Key(10)` against at
      least 5 of mint `Key(11)`; solver `Key(2)` holds 5 of `Key(11)` in its
      associated account. */
  function DrainState(): State {
    State(
      {Key(10), Key(11)},
      map[EscrowAddress(Key(1)) := TokenAccount(Key(10), IntentAddress(Key(1)), 10),
          AssociatedAddress(Key(2), Key(11)) := TokenAccount(Key(11), Key(2), 5)],
      map[],
      map[IntentAddress(Key(1)) := Intent(0, Key(1), Key(10), Key(11), 10, 5, true, 255)],
      map[])
  }

  /** The solver signs as both solver and user and pays from the account the
      payment is addressed to. */
  function DrainAccounts(): FillAccounts {
    FillAccounts(Key(2), Key(2), IntentAddress(Key(1)), AssociatedAddress(Key(2), Key(11)),
                 EscrowAddress(Key(1)), Key(10), Key(11))
  }

  /** An order that names the intent's user and offers exactly the minimum. */
  function DrainOrder(): OrderConfig {
    OrderConfig(0, 10, 5, 5, Key(10), Key(11), Key(1))
  }
}

/** The as-written fill pays whoever signs as `user`; the corrected fill does not. */
module FillFinding {
  import opened Prelude
  import opened Errors
  import opened Addresses
  import opened Custody
  import opened IntentRecord
  import opened Ledger
  import opened IntentFill
  import opened DrainScenario

  /** A solver that signs the fill as both solver and user takes the escrow
      for nothing: the payment goes from its associated account to that same
      account, the intent's user receives nothing, and the intent is spent.
      Nothing in `FillIntent` compares the signing user with the intent's
      user; the corrected fill refuses the same call. Like every fill, it
      needs the solver's output escrow at ("escrow", solver, output mint) to
      be free or already held under this intent (part of `ReachesHandler`). */
  lemma SolverSigningAsUserTakesEscrow(s: State, f: FillAccounts, order: OrderConfig)
    requires ReachesHandler(s, f)
    requires var intent := s.intents[f.intent];
             && intent.active && f.intent == IntentAddress(intent.user)
             && f.user == f.solver && f.solver != intent.user
             && f.solverOutputAta == f.UserReceiveAta()
             && f.userInputEscrow == EscrowAddress(intent.user)
             && f.inputMint == intent.inputToken
             && order.user == intent.user
             && intent.minReceive <= order.receiveAmount <= s.tokens[f.solverOutputAta].amount
             && order.inputAmount <= s.tokens[f.userInputEscrow].amount
             && Amount(s.tokens, f.SolverReceiveAta()) + order.inputAmount < U64_LIMIT
    ensures FillIntent(s, f, order).Ok?
    ensures var r := FillIntent(s, f, order).value;
            var intent := s.intents[f.intent];
            && (forall a :: Amount(r.tokens, a)
                  == Amount(s.tokens, a) + Moved(a, f.userInputEscrow, f.SolverReceiveAta(), order.inputAmount))
            && Amount(r.tokens, AssociatedAddress(intent.user, intent.outputToken))
               == Amount(s.tokens, AssociatedAddress(intent.user, intent.outputToken))
            && !r.intents[f.intent].active
    ensures FillIntentChecked(s, f, order) == Err(Program(IntentUserMismatch))
  {
    assert f.solverOutputAta != f.userInputEscrow;
    assert TransfersAllowed(s, f, order);
    var r := FillIntent(s, f, order);
    assert r.Ok?;
    var intent := s.intents[f.intent];
    var target := AssociatedAddress(intent.user, intent.outputToken);
    assert Settled(target, f, order) == 0;
    assert forall a :: Settled(a, f, order) == Moved(a, f.userInputEscrow, f.SolverReceiveAta(), order.inputAmount);
  }

  /** The same drain without any account appearing twice: the solver signs
      together with an accomplice who is not the intent's user. The accomplice
      is paid, the solver takes the escrow, and the intent's user receives
      nothing while the intent is spent. */
  lemma AccompliceSigningAsUserTakesEscrow(s: State, f: FillAccounts, order: OrderConfig)
    requires ReachesHandler(s, f)
    requires var intent := s.intents[f.intent];
             && intent.active && f.intent == IntentAddress(intent.user)
             && f.user != f.solver && f.user != intent.user && f.solver != intent.user
             && f.inputMint != f.outputMint
             && f.solverOutputAta == AssociatedAddress(f.solver, f.outputMint)
             && s.tokens[f.solverOutputAta].mint == f.outputMint
             && s.tokens[f.solverOutputAta].owner == f.solver
             && f.userInputEscrow == EscrowAddress(intent.user)
             && f.inputMint == intent.inputToken
             && order.user == intent.user
             && intent.minReceive <= order.receiveAmount <= s.tokens[f.solverOutputAta].amount
             && order.inputAmount <= s.tokens[f.userInputEscrow].amount
             && Amount(s.tokens, f.SolverReceiveAta()) + order.inputAmount < U64_LIMIT
             && Amount(s.tokens, f.UserReceiveAta()) + order.receiveAmount < U64_LIMIT
    ensures FillIntent(s, f, order).Ok?
    ensures var r := FillIntent(s, f, order).value;
            var intent := s.intents[f.intent];
            && Amount(r.tokens, f.SolverReceiveAta()) == Amount(s.tokens, f.SolverReceiveAta()) + order.inputAmount
            && Amount(r.tokens, f.UserReceiveAta()) == Amount(s.tokens, f.UserReceiveAta()) + order.receiveAmount
            && Amount(r.tokens, AssociatedAddress(intent.user, intent.outputToken))
               == Amount(s.tokens, AssociatedAddress(intent.user, intent.outputToken))
            && !r.intents[f.intent].active
    ensures FillIntentChecked(s, f, order) == Err(Program(IntentUserMismatch))
  {
    assert f.solverOutputAta != f.userInputEscrow;
    assert f.solverOutputAta != f.UserReceiveAta();
    assert TransfersAllowed(s, f, order);
    var intent := s.intents[f.intent];
    assert Settled(f.SolverReceiveAta(), f, order) == order.inputAmount;
    assert Settled(f.UserReceiveAta(), f, order) == order.receiveAmount;
    assert Settled(AssociatedAddress(intent.user, intent.outputToken), f, order) == 0;
  }

  /** The named accounts of `DrainScenario` meet every condition of
      `SolverSigningAsUserTakesEscrow`. */
  lemma DrainScenarioApplies()
    ensures ReachesHandler(DrainState(), DrainAccounts())
    ensures var s := DrainState();
            var f := DrainAccounts();
            var order := DrainOrder();
            var intent := s.intents[f.intent];
            && intent.active && f.intent == IntentAddress(intent.user)
            && f.user == f.solver && f.solver != intent.user
            && f.solverOutputAta == f.UserReceiveAta()
            && f.userInputEscrow == EscrowAddress(intent.user)
            && f.inputMint == intent.inputToken
            && order.user == intent.user
            && intent.minReceive <= order.receiveAmount <= s.tokens[f.solverOutputAta].amount
            && order.inputAmount <= s.tokens[f.userInputEscrow].amount
            && Amount(s.tokens, f.SolverReceiveAta()) + order.inputAmount < U64_LIMIT
  {
    var s := DrainState();
    var f := DrainAccounts();
    assert Acceptable(s, f.UserReceiveAta(), f.outputMint, f.user);
    assert Acceptable(s, f.SolverReceiveAta(), f.inputMint, f.solver);
    assert Acceptable(s, f.SolverOutputEscrow(), f.outputMint, f.intent);
  }
}
