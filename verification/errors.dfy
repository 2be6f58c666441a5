/** Failure values of the swap program's transitions.

    `ErrorCode` is the program's own error enum, variant for variant. `Fault`
    collects the failures raised outside the program's handlers: by the account
    framework while it validates the accounts of an instruction, by the token
    and system programs the handlers call, and by Rust's arithmetic overflow checks. */
module Errors {

  datatype ErrorCode =
    | IntentInactive
    | IntentUserMismatch
    | IntentInputTokenMismatch
    | IntentOutputTokenMismatch
    | IntentInputAmountMismatch
    | IntentMinReceiveMismatch
    | InsufficientOutput
    | InsufficientBalance
    | InsufficientUserEscrow
    | InsufficientSolverBalance
    | InvalidAccountData
    | InvalidInputAmount
    | InvalidMinReceive
    | MathOverflow
    | AuctionNotStarted
    | AuctionExpired
    | AuctionAlreadyClaimed
    | IntentMismatch
    | PriceBelowMinimum
    | AuctionNotAwarded
    | AuctionNotSolver
    | TimeExceeded

  datatype Fault =
    /** A supplied account does not hold the kind of record the instruction declares. */
    | AccountNotInitialized
    /** `init` at an address that already holds an account. */
    | AccountInUse
    /** `init_if_needed` found a token account of another mint at the address. */
    | ConstraintTokenMint
    /** `init_if_needed` found a token account of another authority at the address. */
    | ConstraintTokenOwner
    /** Token program: the source holds less than the amount. */
    | TokenInsufficientFunds
    /** Token program: source and destination hold different mints. */
    | TokenMintMismatch
    /** Token program: the authority does not own the source. */
    | TokenOwnerMismatch
    /** Token program: the destination balance would leave u64. */
    | TokenOverflow
    /** A program-signed call whose seeds do not derive the authority's address. */
    | MissingSigner
    /** System program: the payer holds fewer lamports than the amount. */
    | LamportShortfall
    /** An integer operation left its type's range (a panic under overflow checks). */
    | ArithmeticOverflow

  datatype Error = Program(code: ErrorCode) | Runtime(fault: Fault)

  /** The outcome of a transition: the whole new state, or one error and no change. */
  datatype Result<+T> = Ok(value: T) | Err(error: Error) {

    predicate IsFailure() {
      Err?
    }

    function PropagateFailure<U>(): Result<U>
      requires Err?
    {
      Err(error)
    }

    function Extract(): T
      requires Ok?
    {
      value
    }
  }

  /** The outcome of one guard: `:- Require(c, e);` continues when `c` holds. */
  datatype Check = Pass | Fail(error: Error) {

    predicate IsFailure() {
      Fail?
    }

    function PropagateFailure<U>(): Result<U>
      requires Fail?
    {
      Err(error)
    }
  }

  /** The program's `require!(cond, code)`. */
  function Require(cond: bool, code: ErrorCode): Check {
    if cond then Pass else Fail(Program(code))
  }

  /** A check made by the framework or a called program rather than by a handler. */
  function RequireRuntime(cond: bool, fault: Fault): Check {
    if cond then Pass else Fail(Runtime(fault))
  }
}
