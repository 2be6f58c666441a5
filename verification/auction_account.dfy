/** The `AuctionAccount` record and its status enum: the state the auction
    transitions act on. */
module AuctionRecord {
  import opened Prelude
  import opened Addresses

  datatype AuctionStatus = Started | Cancelled | Awarded | Ended

  datatype AuctionAccount = AuctionAccount(
    intent: Address,
    startQuote: u64,
    minQuote: u64,
    startTime: i64,
    endTime: i64,
    exclusiveWindowSecs: i64,
    bondAmount: u64,
    claimedBy: Option<Address>,
    claimPrice: Option<u64>,
    claimExpiry: Option<i64>,
    status: AuctionStatus)

  /** `claimedBy`, `claimPrice` and `claimExpiry` are written as one group. */
  predicate ClaimGroupConsistent(a: AuctionAccount) {
    && a.claimPrice.Some? == a.claimedBy.Some?
    && a.claimExpiry.Some? == a.claimedBy.Some?
  }

  /** The status says whether a claim has been recorded, and nothing else. */
  predicate StatusMatchesClaim(a: AuctionAccount) {
    && (a.status == Started <==> a.claimedBy.None?)
    && (a.status == Awarded <==> a.claimedBy.Some?)
  }

  /** The parameters fixed when the auction is created. */
  predicate SameParameters(a: AuctionAccount, b: AuctionAccount) {
    && a.intent == b.intent
    && a.startQuote == b.startQuote
    && a.minQuote == b.minQuote
    && a.startTime == b.startTime
    && a.endTime == b.endTime
    && a.exclusiveWindowSecs == b.exclusiveWindowSecs
    && a.bondAmount == b.bondAmount
  }

  /** A recorded claim lies inside the auction's quote range, and its
      exclusivity ends one window after a moment inside the auction window. */
  predicate ClaimWithinTerms(a: AuctionAccount) {
    && (a.claimPrice.Some? ==> a.minQuote <= a.claimPrice.value <= a.startQuote)
    && (a.claimExpiry.Some? ==>
          a.startTime + a.exclusiveWindowSecs <= a.claimExpiry.value <= a.endTime + a.exclusiveWindowSecs)
  }

  /** Every property an auction record keeps from creation on. */
  predicate Coherent(a: AuctionAccount) {
    && ClaimGroupConsistent(a)
    && StatusMatchesClaim(a)
    && ClaimWithinTerms(a)
    && a.minQuote <= a.startQuote
    && a.startTime < a.endTime
  }
}
