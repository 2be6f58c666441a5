/** The abstract ledger the program's instructions run against: mints, token
    accounts, lamport balances, and the program's own Intent and AuctionAccount
    records, each keyed by its address. */
module Ledger {
  import opened Addresses
  import opened Custody
  import opened IntentRecord
  import opened AuctionRecord

  datatype State = State(
    mints: set<Address>,
    tokens: TokenMap,
    lamports: LamportMap,
    intents: map<Address, Intent>,
    auctions: map<Address, AuctionAccount>)

  /** The address already holds an account's data, so `init` there fails. */
  predicate InUse(s: State, a: Address) {
    a in s.mints || a in s.tokens || a in s.intents || a in s.auctions
  }
}
