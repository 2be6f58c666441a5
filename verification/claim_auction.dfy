/** `claim_auction`: the first solver to claim a started auction inside its
    window wins it at the current decayed price, posting the bond in lamports. */
module AuctionClaim {
  import opened Prelude
  import opened Errors
  import opened Addresses
  import opened Custody
  import opened IntentRecord
  import opened AuctionRecord
  import opened Ledger
  import opened Pricing

  /** The intent and the auction at ("auction", intent) both deserialise. */
  predicate AccountsResolve(s: State, intentAddr: Address) {
    intentAddr in s.intents && AuctionAddress(intentAddr) in s.auctions
  }

  /** The declared account constraints of `ClaimAuction`, all of them. */
  predicate ConstraintsHold(s: State, intentAddr: Address)
    requires AccountsResolve(s, intentAddr)
  {
    var a := s.auctions[AuctionAddress(intentAddr)];
    && s.intents[intentAddr].active
    && a.intent == intentAddr
    && a.status == Started
    && a.claimedBy.None?
  }

  /** The recorded claim of `solver` at time `now` at the given price. */
  predicate RecordsClaim(before: AuctionAccount, after: AuctionAccount, solver: Address, now: int, price: int) {
    && SameParameters(before, after)
    && after.claimedBy == Some(solver)
    && after.claimPrice.Some? && after.claimPrice.value == price
    && after.claimExpiry.Some? && after.claimExpiry.value == now + before.exclusiveWindowSecs
    && after.status == Awarded
  }

  /** `ClaimAuction` account checks and `handler`; `now` is the clock reading. */
  function ClaimAuction(s: State, solver: Signer, intentAddr: Address, now: i64): (r: Result<State>)
    // account constraints, in declaration order
    ensures r == Err(Program(IntentInactive))
        <==> AccountsResolve(s, intentAddr) && !s.intents[intentAddr].active
    ensures r == Err(Program(IntentMismatch))
        <==> AccountsResolve(s, intentAddr) && s.intents[intentAddr].active
             && s.auctions[AuctionAddress(intentAddr)].intent != intentAddr
    ensures r == Err(Program(AuctionAlreadyClaimed))
        <==> AccountsResolve(s, intentAddr) && s.intents[intentAddr].active
             && s.auctions[AuctionAddress(intentAddr)].intent == intentAddr
             && s.auctions[AuctionAddress(intentAddr)].status == Started
             && s.auctions[AuctionAddress(intentAddr)].claimedBy.Some?
    // a wrong status, and a claim before the window opens, share one error code
    ensures r == Err(Program(AuctionNotStarted))
        <==> AccountsResolve(s, intentAddr) && s.intents[intentAddr].active
             && s.auctions[AuctionAddress(intentAddr)].intent == intentAddr
             && (|| s.auctions[AuctionAddress(intentAddr)].status != Started
                 || (s.auctions[AuctionAddress(intentAddr)].claimedBy.None?
                     && now < s.auctions[AuctionAddress(intentAddr)].startTime))
    ensures r == Err(Program(AuctionExpired))
        <==> AccountsResolve(s, intentAddr) && ConstraintsHold(s, intentAddr)
             && s.auctions[AuctionAddress(intentAddr)].startTime <= now
             && now > s.auctions[AuctionAddress(intentAddr)].endTime
    // a claim succeeds exactly when the constraints pass, the price can be
    // computed inside the window, the solver covers the bond without the vault
    // overflowing, and the claim's expiry fits in i64
    ensures r.Ok? <==> && AccountsResolve(s, intentAddr) && ConstraintsHold(s, intentAddr)
                       && var a := s.auctions[AuctionAddress(intentAddr)];
                          && a.startTime <= now <= a.endTime
                          && CurrentPrice(a, now).Some? && CurrentPrice(a, now).value >= a.minQuote
                          && Lamports(s.lamports, solver) >= a.bondAmount
                          && Lamports(s.lamports, BondVaultAddress()) + a.bondAmount < U64_LIMIT
                          && IsI64(now + a.exclusiveWindowSecs)
    // a success records the claim as one group
    ensures r.Ok? ==>
              var before := s.auctions[AuctionAddress(intentAddr)];
              && before.startTime <= now <= before.endTime
              && CurrentPrice(before, now).Some?
              && AuctionAddress(intentAddr) in r.value.auctions
              && r.value.auctions == s.auctions[AuctionAddress(intentAddr) := r.value.auctions[AuctionAddress(intentAddr)]]
              && RecordsClaim(before, r.value.auctions[AuctionAddress(intentAddr)], solver, now,
                              CurrentPrice(before, now).value)
    // the bond moves from the solver to the bond vault, and nothing else moves
    ensures r.Ok? ==> forall a :: Lamports(r.value.lamports, a)
                        == Lamports(s.lamports, a)
                           + Moved(a, solver, BondVaultAddress(), s.auctions[AuctionAddress(intentAddr)].bondAmount)
    ensures r.Ok? ==> r.value.intents == s.intents && r.value.tokens == s.tokens && r.value.mints == s.mints
  {
    var auctionAddr := AuctionAddress(intentAddr);
    // deserialisation
    :- RequireRuntime(intentAddr in s.intents, AccountNotInitialized);
    :- RequireRuntime(auctionAddr in s.auctions, AccountNotInitialized);
    var intent := s.intents[intentAddr];
    var auction := s.auctions[auctionAddr];
    // constraints
    :- Require(intent.active, IntentInactive);
    :- Require(auction.intent == intentAddr, IntentMismatch);
    :- Require(auction.status == Started, AuctionNotStarted);
    :- Require(auction.claimedBy.None?, AuctionAlreadyClaimed);
    // the handler
    :- Require(now >= auction.startTime, AuctionNotStarted);
    :- Require(now <= auction.endTime, AuctionExpired);
    var priceAtClaim := CurrentPrice(auction, now);
    :- RequireRuntime(priceAtClaim.Some?, ArithmeticOverflow);
    :- Require(priceAtClaim.value >= auction.minQuote, PriceBelowMinimum);
    var lamports :- LamportTransfer(s.lamports, solver, BondVaultAddress(), auction.bondAmount);
    :- RequireRuntime(IsI64(now + auction.exclusiveWindowSecs), ArithmeticOverflow);
    var claimed := auction.(
      claimedBy := Some(solver),
      claimExpiry := Some(now + auction.exclusiveWindowSecs),
      claimPrice := Some(priceAtClaim.value),
      status := Awarded);
    Ok(s.(lamports := lamports, auctions := s.auctions[auctionAddr := claimed]))
  }

  /** On an auction whose price computation is well formed, the
      `PriceBelowMinimum` guard can never fire, and the price recorded by a
      successful claim lies within the auction's quotes. */
  lemma PriceGuardNeverFires(s: State, solver: Signer, intentAddr: Address, now: i64)
    requires AccountsResolve(s, intentAddr) && PriceWellFormed(s.auctions[AuctionAddress(intentAddr)])
    ensures ClaimAuction(s, solver, intentAddr, now) != Err(Program(PriceBelowMinimum))
    ensures ClaimAuction(s, solver, intentAddr, now).Ok? ==>
              var a := s.auctions[AuctionAddress(intentAddr)];
              var p := ClaimAuction(s, solver, intentAddr, now).value.auctions[AuctionAddress(intentAddr)].claimPrice;
              p.Some? && a.minQuote <= p.value <= a.startQuote
  {
    PriceWithinQuotes(s.auctions[AuctionAddress(intentAddr)], now);
  }

  /** First claim wins: after one claim succeeds, every later claim on the
      same auction fails, by any solver at any time, and it fails on the status
      check because the status is no longer Started. */
  lemma FirstClaimWins(s: State, solver: Signer, intentAddr: Address, now: i64,
                       rival: Signer, later: i64)
    requires ClaimAuction(s, solver, intentAddr, now).Ok?
    ensures ClaimAuction(ClaimAuction(s, solver, intentAddr, now).value, rival, intentAddr, later)
         == Err(Program(AuctionNotStarted))
  {
  }

  /** A claim one second after the end of the window fails as expired, and
      a claim that succeeds at the very end records the minimum quote. */
  lemma ClaimAtWindowEdge(s: State, solver: Signer, intentAddr: Address)
    requires AccountsResolve(s, intentAddr) && ConstraintsHold(s, intentAddr)
    requires var a := s.auctions[AuctionAddress(intentAddr)];
             a.startTime < a.endTime && IsI64(a.endTime + 1)
    ensures var a := s.auctions[AuctionAddress(intentAddr)];
            ClaimAuction(s, solver, intentAddr, a.endTime + 1) == Err(Program(AuctionExpired))
    ensures var a := s.auctions[AuctionAddress(intentAddr)];
            ClaimAuction(s, solver, intentAddr, a.endTime).Ok? ==>
              ClaimAuction(s, solver, intentAddr, a.endTime).value.auctions[AuctionAddress(intentAddr)].claimPrice
              == Some(a.minQuote)
  {
  }

  /** On an auction with ordered quotes and a window that fits in i64, a
      claim made exactly at the end of the window by a solver that covers the
      bond succeeds, at the minimum quote. */
  lemma ClaimAtEndSucceeds(s: State, solver: Signer, intentAddr: Address)
    requires AccountsResolve(s, intentAddr) && ConstraintsHold(s, intentAddr)
    requires var a := s.auctions[AuctionAddress(intentAddr)];
             && PriceWellFormed(a) && a.startTime < a.endTime
             && IsI64(a.endTime + a.exclusiveWindowSecs)
             && Lamports(s.lamports, solver) >= a.bondAmount
             && Lamports(s.lamports, BondVaultAddress()) + a.bondAmount < U64_LIMIT
    ensures var a := s.auctions[AuctionAddress(intentAddr)];
            && ClaimAuction(s, solver, intentAddr, a.endTime).Ok?
            && ClaimAuction(s, solver, intentAddr, a.endTime).value.auctions[AuctionAddress(intentAddr)].claimPrice
               == Some(a.minQuote)
  {
    var a := s.auctions[AuctionAddress(intentAddr)];
    PriceWithinQuotes(a, a.endTime);
  }
}
