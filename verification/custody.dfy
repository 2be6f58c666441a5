/** The two custody primitives the handlers call: the token program's
    `transfer` between token accounts and the system program's lamport
    `transfer`, each as a debit/credit on a balance map that fails on
    shortfall. Supply over a map is the conserved quantity. */
module Custody {
  import opened Prelude
  import opened Errors
  import opened Addresses

  /** A token account: which mint it holds, who may move its tokens, how many. */
  datatype TokenAccount = TokenAccount(mint: Address, owner: Address, amount: u64)

  type TokenMap = map<Address, TokenAccount>

  type LamportMap = map<Address, u64>

  /** Balance of a token address; an address without an account holds nothing. */
  function Amount(tokens: TokenMap, a: Address): nat {
    if a in tokens then tokens[a].amount else 0
  }

  /** Lamports held at an address; an absent entry holds none. */
  function Lamports(lamports: LamportMap, a: Address): nat {
    if a in lamports then lamports[a] else 0
  }

  /** Net change a movement of `amount` from `from` to `to` makes at `a`. */
  function Moved(a: Address, from: Address, to: Address, amount: nat): int {
    (if a == to then amount else 0) - (if a == from then amount else 0)
  }

  // ---------------------------------------------------------------------------
  // Sums over maps

  ghost function SumOver<K>(f: map<K, nat>, keys: set<K>): nat
    requires keys <= f.Keys
    decreases keys
  {
    if keys == {} then 0
    else
      var k :| k in keys;
      f[k] + SumOver(f, keys - {k})
  }

  ghost function Sum<K>(f: map<K, nat>): nat {
    SumOver(f, f.Keys)
  }

  /** Any key may be taken out of the sum first, not only the one the
      definition happens to choose. */
  lemma {:induction false} SumOverSplit<K>(f: map<K, nat>, keys: set<K>, k: K)
    requires keys <= f.Keys && k in keys
    ensures SumOver(f, keys) == f[k] + SumOver(f, keys - {k})
    decreases keys
  {
    var j :| j in keys && SumOver(f, keys) == f[j] + SumOver(f, keys - {j});
    if j != k {
      SumOverSplit(f, keys - {j}, k);
      SumOverSplit(f, keys - {k}, j);
      assert keys - {j} - {k} == keys - {k} - {j};
    }
  }

  /** The sum over `keys` depends only on the values at `keys`. */
  lemma {:induction false} SumOverFrame<K>(f: map<K, nat>, g: map<K, nat>, keys: set<K>)
    requires keys <= f.Keys && keys <= g.Keys
    requires forall x :: x in keys ==> f[x] == g[x]
    ensures SumOver(f, keys) == SumOver(g, keys)
    decreases keys
  {
    if keys != {} {
      var k :| k in keys;
      SumOverSplit(f, keys, k);
      SumOverSplit(g, keys, k);
      SumOverFrame(f, g, keys - {k});
    }
  }

  /** Writing `v` at `k` replaces that key's share of the sum by `v`. */
  lemma SumUpdate<K>(f: map<K, nat>, k: K, v: nat)
    ensures Sum(f[k := v]) == Sum(f) - (if k in f then f[k] else 0) + v
  {
    var g := f[k := v];
    var rest := f.Keys - {k};
    assert g.Keys - {k} == rest;
    SumOverSplit(g, g.Keys, k);
    SumOverFrame(f, g, rest);
    if k in f {
      SumOverSplit(f, f.Keys, k);
    } else {
      assert f.Keys == rest;
    }
  }

  // ---------------------------------------------------------------------------
  // Token supply

  /** What `acct` contributes to the supply of `mint`. */
  function Share(acct: TokenAccount, mint: Address): nat {
    if acct.mint == mint then acct.amount else 0
  }

  ghost function Shares(tokens: TokenMap, mint: Address): map<Address, nat> {
    map a | a in tokens :: Share(tokens[a], mint)
  }

  /** Total of `mint` held across all token accounts. */
  ghost function Supply(tokens: TokenMap, mint: Address): nat {
    Sum(Shares(tokens, mint))
  }

  lemma SupplyUpdate(tokens: TokenMap, a: Address, acct: TokenAccount, mint: Address)
    ensures Supply(tokens[a := acct], mint)
         == Supply(tokens, mint) - (if a in tokens then Share(tokens[a], mint) else 0) + Share(acct, mint)
  {
    assert Shares(tokens[a := acct], mint) == Shares(tokens, mint)[a := Share(acct, mint)];
    SumUpdate(Shares(tokens, mint), a, Share(acct, mint));
  }

  /** Opening an empty token account leaves every supply unchanged. */
  lemma SupplyOpenEmpty(tokens: TokenMap, a: Address, acct: TokenAccount, mint: Address)
    requires a !in tokens && acct.amount == 0
    ensures Supply(tokens[a := acct], mint) == Supply(tokens, mint)
  {
    SupplyUpdate(tokens, a, acct, mint);
  }

  // ---------------------------------------------------------------------------
  // Token program transfer

  /** Everything the token program demands of a transfer. */
  predicate TransferAllowed(tokens: TokenMap, from: Address, to: Address, authority: Address, amount: u64) {
    && from in tokens && to in tokens
    && tokens[from].amount >= amount
    && tokens[from].mint == tokens[to].mint
    && tokens[from].owner == authority
    && (from == to || tokens[to].amount + amount < U64_LIMIT)
  }

  /** The token program's `transfer`: checks in the program's order (balance,
      mint, authority), a transfer to the source itself changes nothing, and the
      credit is checked against u64. Delegates and frozen accounts are not modelled. */
  function Transfer(tokens: TokenMap, from: Address, to: Address, authority: Address, amount: u64)
    : (r: Result<TokenMap>)
    ensures r.Ok? <==> TransferAllowed(tokens, from, to, authority, amount)
    ensures r.Err? ==> r.error.Runtime?
    ensures r.Ok? ==> r.value.Keys == tokens.Keys
    ensures r.Ok? ==> forall a :: a in tokens ==>
              r.value[a].mint == tokens[a].mint && r.value[a].owner == tokens[a].owner
    ensures r.Ok? ==> forall a :: Amount(r.value, a) == Amount(tokens, a) + Moved(a, from, to, amount)
  {
    if from !in tokens || to !in tokens then Err(Runtime(AccountNotInitialized))
    else
      var src := tokens[from];
      var dst := tokens[to];
      if src.amount < amount then Err(Runtime(TokenInsufficientFunds))
      else if src.mint != dst.mint then Err(Runtime(TokenMintMismatch))
      else if src.owner != authority then Err(Runtime(TokenOwnerMismatch))
      else if from == to then Ok(tokens)
      else if dst.amount + amount >= U64_LIMIT then Err(Runtime(TokenOverflow))
      else Ok(tokens[from := src.(amount := src.amount - amount)][to := dst.(amount := dst.amount + amount)])
  }

  /** A token transfer neither creates nor destroys any mint's tokens. */
  lemma TransferConservesSupply(tokens: TokenMap, from: Address, to: Address, authority: Address,
                                amount: u64, mint: Address)
    requires Transfer(tokens, from, to, authority, amount).Ok?
    ensures Supply(Transfer(tokens, from, to, authority, amount).value, mint) == Supply(tokens, mint)
  {
    if from != to {
      var src := tokens[from];
      var dst := tokens[to];
      var t1 := tokens[from := src.(amount := src.amount - amount)];
      SupplyUpdate(tokens, from, src.(amount := src.amount - amount), mint);
      SupplyUpdate(t1, to, dst.(amount := dst.amount + amount), mint);
    }
  }

  // ---------------------------------------------------------------------------
  // System program transfer

  /** Total lamports across all addresses. */
  ghost function TotalLamports(lamports: LamportMap): nat {
    Sum(map a | a in lamports :: lamports[a] as nat)
  }

  /** The system program's lamport `transfer` between two distinct accounts. */
  function LamportTransfer(lamports: LamportMap, from: Address, to: Address, amount: u64)
    : (r: Result<LamportMap>)
    requires from != to
    ensures r.Ok? <==> Lamports(lamports, from) >= amount && Lamports(lamports, to) + amount < U64_LIMIT
    ensures r.Err? ==> r.error.Runtime?
    ensures r.Ok? ==> forall a :: Lamports(r.value, a) == Lamports(lamports, a) + Moved(a, from, to, amount)
  {
    var have := Lamports(lamports, from);
    var held := Lamports(lamports, to);
    if have < amount then Err(Runtime(LamportShortfall))
    else if held + amount >= U64_LIMIT then Err(Runtime(ArithmeticOverflow))
    else Ok(lamports[from := have - amount][to := held + amount])
  }

  /** A lamport transfer neither creates nor destroys lamports. */
  lemma LamportTransferConserves(lamports: LamportMap, from: Address, to: Address, amount: u64)
    requires from != to
    requires LamportTransfer(lamports, from, to, amount).Ok?
    ensures TotalLamports(LamportTransfer(lamports, from, to, amount).value) == TotalLamports(lamports)
  {
    var have := Lamports(lamports, from);
    var held := Lamports(lamports, to);
    var l1 := lamports[from := have - amount];
    var l2 := l1[to := held + amount];
    var f0 := map a | a in lamports :: lamports[a] as nat;
    var f1 := map a | a in l1 :: l1[a] as nat;
    var f2 := map a | a in l2 :: l2[a] as nat;
    assert f1 == f0[from := have - amount];
    assert f2 == f1[to := held + amount];
    SumUpdate(f0, from, have - amount);
    SumUpdate(f1, to, held + amount);
  }
}
