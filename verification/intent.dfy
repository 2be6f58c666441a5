/** The `Intent` record: a user's standing request to swap `inputAmount` of
    `inputToken` for at least `minReceive` of `outputToken`. */
module IntentRecord {
  import opened Prelude
  import opened Addresses

  datatype Intent = Intent(
    id: u64,
    user: Address,
    inputToken: Address,
    outputToken: Address,
    inputAmount: u64,
    minReceive: u64,
    active: bool,
    bump: u8)

  /** Two records agree on everything a user committed to at creation;
      only `active` may differ. */
  predicate SameTerms(a: Intent, b: Intent) {
    && a.id == b.id
    && a.user == b.user
    && a.inputToken == b.inputToken
    && a.outputToken == b.outputToken
    && a.inputAmount == b.inputAmount
    && a.minReceive == b.minReceive
    && a.bump == b.bump
  }

  /** The only change an intent ever undergoes after creation. */
  function Deactivate(i: Intent): (r: Intent)
    ensures SameTerms(i, r) && !r.active
  {
    i.(active := false)
  }
}
