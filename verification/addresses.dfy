/** Account addresses.

    A program-derived address is a hash of its seeds; this model replaces the
    hash by the seeds themselves, so derivation is injective and the role label
    keeps addresses of different roles apart by construction. Wallet keys (the
    only addresses that can sign) and associated token addresses are further
    constructors. */
module Addresses {

  /** The seed tuples the program derives addresses from. */
  datatype Seed =
    | IntentSeed(user: Address)       // ("intent", user)
    | EscrowSeed(user: Address)       // ("escrow", user)
    | SolverEscrowSeed(solver: Address, mint: Address)  // ("escrow", solver, mint)
    | AuctionSeed(intent: Address)    // ("auction", intent)
    | BondVaultSeed                   // ("bond_vault")

  datatype Address =
    | Key(id: nat)
    | Pda(seed: Seed)
    | Ata(owner: Address, mint: Address)

  /** Only an address with a private key can sign a transaction. */
  type Signer = a: Address | a.Key? witness Key(0)

  function IntentAddress(user: Address): Address {
    Pda(IntentSeed(user))
  }

  function EscrowAddress(user: Address): Address {
    Pda(EscrowSeed(user))
  }

  /** The fill's output escrow of `solver` for `mint`. */
  function SolverEscrowAddress(solver: Address, mint: Address): Address {
    Pda(SolverEscrowSeed(solver, mint))
  }

  function AuctionAddress(intent: Address): Address {
    Pda(AuctionSeed(intent))
  }

  function BondVaultAddress(): Address {
    Pda(BondVaultSeed)
  }

  /** The associated token account of `owner` for `mint`. */
  function AssociatedAddress(owner: Address, mint: Address): Address {
    Ata(owner, mint)
  }

  /** Derivation is injective within each role, and no two roles share an
      address, nor does any derived address coincide with a wallet key. */
  lemma DerivationInjective(u: Address, v: Address)
    ensures IntentAddress(u) == IntentAddress(v) <==> u == v
    ensures EscrowAddress(u) == EscrowAddress(v) <==> u == v
    ensures AuctionAddress(u) == AuctionAddress(v) <==> u == v
    ensures IntentAddress(u) != EscrowAddress(v)
    ensures IntentAddress(u) != AuctionAddress(v) && EscrowAddress(u) != AuctionAddress(v)
    ensures BondVaultAddress() !in {IntentAddress(u), EscrowAddress(u), AuctionAddress(u)}
    ensures !IntentAddress(u).Key? && !EscrowAddress(u).Key? && !AuctionAddress(u).Key?
  {
  }

  /** The fill's solver escrow address determines its solver and mint, and it
      never coincides with any party's intent, escrow or auction address, the
      bond vault, or a wallet key. */
  lemma SolverEscrowDistinct(u: Address, v: Address, w: Address, x: Address)
    ensures SolverEscrowAddress(u, v) == SolverEscrowAddress(w, x) <==> u == w && v == x
    ensures SolverEscrowAddress(u, v) !in {IntentAddress(w), EscrowAddress(w), AuctionAddress(w), BondVaultAddress()}
    ensures !SolverEscrowAddress(u, v).Key?
  {
  }
}
