/** `create_intent`: a user records an Intent at the address derived from
    ("intent", user) and moves the input amount into an escrow token account at
    ("escrow", user) whose authority is the intent. */
module IntentCreation {
  import opened Prelude
  import opened Errors
  import opened Addresses
  import opened Custody
  import opened IntentRecord
  import opened Ledger

  datatype CreateIntentArgs = CreateIntentArgs(
    inputToken: Address,
    outputToken: Address,
    inputAmount: u64,
    minReceive: u64)

  /** `init_if_needed` at ("escrow", user) accepts an existing token account of
      the right mint and authority, or an address holding nothing. */
  predicate EscrowAcceptable(s: State, user: Address, inputMint: Address) {
    var e := EscrowAddress(user);
    if e in s.tokens then s.tokens[e].mint == inputMint && s.tokens[e].owner == IntentAddress(user)
    else !InUse(s, e)
  }

  /** Every account check the framework makes before the handler runs. */
  predicate AccountsResolve(s: State, user: Address, userTokenAccount: Address, inputMint: Address) {
    && userTokenAccount in s.tokens
    && inputMint in s.mints
    && !InUse(s, IntentAddress(user))
    && EscrowAcceptable(s, user, inputMint)
  }

  /** `init_if_needed` of the escrow: an absent account is opened empty. */
  function OpenEscrow(s: State, user: Address, inputMint: Address): (r: Result<TokenMap>)
    ensures r.Ok? <==> EscrowAcceptable(s, user, inputMint)
    ensures r.Err? ==> r.error.Runtime?
    ensures r.Ok? ==> EscrowAddress(user) in r.value && r.value.Keys == s.tokens.Keys + {EscrowAddress(user)}
    ensures r.Ok? ==> r.value[EscrowAddress(user)].mint == inputMint
                      && r.value[EscrowAddress(user)].owner == IntentAddress(user)
    ensures r.Ok? ==> forall a :: a in s.tokens ==> r.value[a] == s.tokens[a]
    ensures r.Ok? ==> forall a :: Amount(r.value, a) == Amount(s.tokens, a)
  {
    var e := EscrowAddress(user);
    if e in s.tokens then
      :- RequireRuntime(s.tokens[e].mint == inputMint, ConstraintTokenMint);
      :- RequireRuntime(s.tokens[e].owner == IntentAddress(user), ConstraintTokenOwner);
      Ok(s.tokens)
    else
      :- RequireRuntime(!InUse(s, e), AccountInUse);
      Ok(s.tokens[e := TokenAccount(inputMint, IntentAddress(user), 0)])
  }

  /** `create_intent_handler` behind its account checks. `user` signs; the
      intent and escrow addresses are derived from it; `bump` is the runtime's
      bump for the intent address, stored in the record. */
  function CreateIntent(s: State, user: Signer, userTokenAccount: Address, inputMint: Address,
                        args: CreateIntentArgs, id: u64, bump: u8): (r: Result<State>)
    // the only guard of the handler itself is the balance guard: zero amounts pass
    ensures r.Err? ==> r.error.Runtime? || r.error == Program(InsufficientBalance)
    ensures r == Err(Program(InsufficientBalance))
        <==> AccountsResolve(s, user, userTokenAccount, inputMint)
             && s.tokens[userTokenAccount].amount < args.inputAmount
    ensures r.Ok?
        <==> && AccountsResolve(s, user, userTokenAccount, inputMint)
             && s.tokens[userTokenAccount].amount >= args.inputAmount
             && s.tokens[userTokenAccount].owner == user
             && s.tokens[userTokenAccount].mint == inputMint
             && Amount(s.tokens, EscrowAddress(user)) + args.inputAmount < U64_LIMIT
    // the new record holds the signer and the arguments, and is active
    ensures r.Ok? ==>
              && IntentAddress(user) !in s.intents
              && r.value.intents == s.intents[IntentAddress(user) := Intent(
                   id, user, args.inputToken, args.outputToken, args.inputAmount, args.minReceive, true, bump)]
    // exactly the input amount moves from the user's account into the escrow
    ensures r.Ok? ==> forall a :: Amount(r.value.tokens, a)
                        == Amount(s.tokens, a) + Moved(a, userTokenAccount, EscrowAddress(user), args.inputAmount)
    ensures r.Ok? ==> EscrowAddress(user) in r.value.tokens
                      && r.value.tokens[EscrowAddress(user)].mint == inputMint
                      && r.value.tokens[EscrowAddress(user)].owner == IntentAddress(user)
    ensures r.Ok? ==> forall a :: a in s.tokens ==>
              a in r.value.tokens && r.value.tokens[a].mint == s.tokens[a].mint
              && r.value.tokens[a].owner == s.tokens[a].owner
    ensures r.Ok? ==> r.value.tokens.Keys == s.tokens.Keys + {EscrowAddress(user)}
    ensures r.Ok? ==> r.value.mints == s.mints && r.value.lamports == s.lamports && r.value.auctions == s.auctions
  {
    var intentAddr := IntentAddress(user);
    // deserialisation of the declared accounts
    :- RequireRuntime(userTokenAccount in s.tokens, AccountNotInitialized);
    :- RequireRuntime(inputMint in s.mints, AccountNotInitialized);
    // `init` of the intent, then `init_if_needed` of the escrow
    :- RequireRuntime(!InUse(s, intentAddr), AccountInUse);
    var withEscrow :- OpenEscrow(s, user, inputMint);
    // the handler
    :- Require(s.tokens[userTokenAccount].amount >= args.inputAmount, InsufficientBalance);
    var intent := Intent(id, user, args.inputToken, args.outputToken, args.inputAmount, args.minReceive, true, bump);
    var moved :- Transfer(withEscrow, userTokenAccount, EscrowAddress(user), user, args.inputAmount);
    Ok(s.(tokens := moved, intents := s.intents[intentAddr := intent]))
  }

  /** Creating an intent neither creates nor destroys any mint's tokens. */
  lemma CreateIntentConservesSupply(s: State, user: Signer, userTokenAccount: Address, inputMint: Address,
                                    args: CreateIntentArgs, id: u64, bump: u8, mint: Address)
    requires CreateIntent(s, user, userTokenAccount, inputMint, args, id, bump).Ok?
    ensures Supply(CreateIntent(s, user, userTokenAccount, inputMint, args, id, bump).value.tokens, mint)
         == Supply(s.tokens, mint)
  {
    var withEscrow := OpenEscrow(s, user, inputMint).value;
    var e := EscrowAddress(user);
    if e !in s.tokens {
      SupplyOpenEmpty(s.tokens, e, TokenAccount(inputMint, IntentAddress(user), 0), mint);
    }
    TransferConservesSupply(withEscrow, userTokenAccount, e, user, args.inputAmount, mint);
  }

  /** The intent address ignores `id`: once a user has an intent, every later
      `create_intent` by that user fails, whatever its id and arguments. */
  lemma OneIntentPerUser(s: State, user: Signer, userTokenAccount: Address, inputMint: Address,
                         args: CreateIntentArgs, id: u64, bump: u8)
    requires IntentAddress(user) in s.intents
    ensures CreateIntent(s, user, userTokenAccount, inputMint, args, id, bump).Err?
    ensures userTokenAccount in s.tokens && inputMint in s.mints ==>
              CreateIntent(s, user, userTokenAccount, inputMint, args, id, bump) == Err(Runtime(AccountInUse))
  {
  }

  /** No positivity check at creation: an intent for zero tokens and a zero
      minimum is accepted whenever the accounts are in order. */
  lemma ZeroAmountsAccepted(s: State, user: Signer, userTokenAccount: Address, inputMint: Address,
                            inputToken: Address, outputToken: Address, id: u64, bump: u8)
    requires AccountsResolve(s, user, userTokenAccount, inputMint)
    requires s.tokens[userTokenAccount].owner == user && s.tokens[userTokenAccount].mint == inputMint
    ensures CreateIntent(s, user, userTokenAccount, inputMint,
                         CreateIntentArgs(inputToken, outputToken, 0, 0), id, bump).Ok?
  {
  }
}
