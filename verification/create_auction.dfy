/** `create_auction`: derives the Dutch-auction parameters of an active intent
    and records a fresh AuctionAccount at ("auction", intent). */
module AuctionCreation {
  import opened Prelude
  import opened Errors
  import opened Addresses
  import opened IntentRecord
  import opened AuctionRecord
  import opened Ledger

  const PREMIUM_PERCENT: nat := 110
  const AUCTION_DURATION_SECS: nat := 120
  const EXCLUSIVE_WINDOW_SECS: nat := 30
  const BOND_AMOUNT: nat := 1_000_000

  /** The start quote: the minimum receive plus a ten per cent premium, floored. */
  function StartQuote(minReceive: nat): nat {
    minReceive * PREMIUM_PERCENT / 100
  }

  /** An auction as `create_auction` leaves it: no claim, status Started. */
  predicate Unclaimed(a: AuctionAccount) {
    && a.claimedBy.None? && a.claimPrice.None? && a.claimExpiry.None?
    && a.status == Started
  }

  /** The framework's checks: the intent deserialises and the auction address is free. */
  predicate AccountsResolve(s: State, intentAddr: Address) {
    intentAddr in s.intents && !InUse(s, AuctionAddress(intentAddr))
  }

  /** `create_auction_handler` behind its account checks. The payer is not
      compared with the intent's user, and rent is not modelled, so no caller
      appears; `now` is the clock reading. */
  function CreateAuction(s: State, intentAddr: Address, now: i64): (r: Result<State>)
    // guards, first failure wins
    ensures r == Err(Program(IntentInactive))
        <==> AccountsResolve(s, intentAddr) && !s.intents[intentAddr].active
    ensures r == Err(Program(InvalidMinReceive))
        <==> AccountsResolve(s, intentAddr) && s.intents[intentAddr].active
             && s.intents[intentAddr].minReceive == 0
    ensures r == Err(Program(InvalidInputAmount))
        <==> AccountsResolve(s, intentAddr) && s.intents[intentAddr].active
             && s.intents[intentAddr].minReceive > 0 && s.intents[intentAddr].inputAmount == 0
    ensures r == Err(Program(MathOverflow))
        <==> AccountsResolve(s, intentAddr) && s.intents[intentAddr].active
             && s.intents[intentAddr].minReceive > 0 && s.intents[intentAddr].inputAmount > 0
             && s.intents[intentAddr].minReceive * PREMIUM_PERCENT >= U64_LIMIT
    ensures r.Ok?
        <==> AccountsResolve(s, intentAddr) && s.intents[intentAddr].active
             && s.intents[intentAddr].minReceive > 0 && s.intents[intentAddr].inputAmount > 0
             && s.intents[intentAddr].minReceive * PREMIUM_PERCENT < U64_LIMIT
             && IsI64(now + AUCTION_DURATION_SECS)
    // the new record, and nothing else changes
    ensures r.Ok? ==> AuctionAddress(intentAddr) in r.value.auctions
    ensures r.Ok? ==>
              var a := r.value.auctions[AuctionAddress(intentAddr)];
              && AuctionAddress(intentAddr) !in s.auctions
              && r.value.auctions == s.auctions[AuctionAddress(intentAddr) := a]
              && a.intent == intentAddr
              && a.startQuote == StartQuote(s.intents[intentAddr].minReceive)
              && a.minQuote == s.intents[intentAddr].minReceive
              && a.startTime == now && a.endTime == now + AUCTION_DURATION_SECS
              && a.exclusiveWindowSecs == EXCLUSIVE_WINDOW_SECS && a.bondAmount == BOND_AMOUNT
              && Unclaimed(a)
    ensures r.Ok? ==> r.value.intents == s.intents && r.value.tokens == s.tokens
                      && r.value.lamports == s.lamports && r.value.mints == s.mints
  {
    var auctionAddr := AuctionAddress(intentAddr);
    // deserialisation of the intent, then `init` of the auction
    :- RequireRuntime(intentAddr in s.intents, AccountNotInitialized);
    :- RequireRuntime(!InUse(s, auctionAddr), AccountInUse);
    // the intent's `constraint`
    var intent := s.intents[intentAddr];
    :- Require(intent.active, IntentInactive);
    // the handler
    :- Require(intent.minReceive > 0, InvalidMinReceive);
    :- Require(intent.inputAmount > 0, InvalidInputAmount);
    :- Require(intent.minReceive * PREMIUM_PERCENT < U64_LIMIT, MathOverflow);
    var startQuote := StartQuote(intent.minReceive);
    :- RequireRuntime(IsI64(now + AUCTION_DURATION_SECS), ArithmeticOverflow);
    var auction := AuctionAccount(
      intentAddr, startQuote, intent.minReceive, now, now + AUCTION_DURATION_SECS,
      EXCLUSIVE_WINDOW_SECS, BOND_AMOUNT, None, None, None, Started);
    Ok(s.(auctions := s.auctions[auctionAddr := auction]))
  }

  /** The premium adds a tenth of the minimum, rounded down. */
  lemma StartQuoteAddsTenth(m: nat)
    ensures StartQuote(m) == m + m / 10
  {
    var q := m / 10;
    var rem := m % 10;
    assert m == 10 * q + rem;
    assert m * PREMIUM_PERCENT == 100 * (11 * q + rem) + 10 * rem;
    assert 0 <= 10 * rem < 100;
  }

  /** The start quote is never below the minimum quote, and equals it exactly
      when the minimum is below ten. */
  lemma StartQuoteVersusMin(m: nat)
    ensures StartQuote(m) >= m
    ensures StartQuote(m) == m <==> m < 10
  {
    StartQuoteAddsTenth(m);
  }

  /** A created auction satisfies every auction-record invariant. */
  lemma CreatedAuctionCoherent(s: State, intentAddr: Address, now: i64)
    requires CreateAuction(s, intentAddr, now).Ok?
    ensures Coherent(CreateAuction(s, intentAddr, now).value.auctions[AuctionAddress(intentAddr)])
  {
    StartQuoteVersusMin(s.intents[intentAddr].minReceive);
  }

  /** The auction address is `init`ed, so a second auction for the same intent fails. */
  lemma OneAuctionPerIntent(s: State, intentAddr: Address, now: i64, later: i64)
    requires CreateAuction(s, intentAddr, now).Ok?
    ensures CreateAuction(CreateAuction(s, intentAddr, now).value, intentAddr, later) == Err(Runtime(AccountInUse))
  {
  }

  /** A minimum receive of 5,000,000 gives a start quote of 5,500,000. */
  lemma StartQuoteExample()
    ensures StartQuote(5_000_000) == 5_500_000
    ensures StartQuote(5) == 5
  {
  }
}
