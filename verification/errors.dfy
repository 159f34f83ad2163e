/** Every way an instruction of the market program can fail. */
module Errors {

  /** The program's own error codes, declared in the same order as its error enum. */
  datatype MarketError =
    | InvalidSettlementDeadline
    | MarketAlreadySettled
    | MarketExpired
    | InvalidAmount
    | InvalidOrderQuantity
    | InvalidOrderPrice
    | MathOverflow
    | InvalidWinningOutcome
    | MarketNotSettled
    | WinningOutcomeNotSet
    | MaxOrdersReached
    | NotEnoughBalance
    | SellerStatsAccountNotProvided

  /** Failures of the token ledger's transfer, mint, burn and authority change. */
  datatype TokenError = InsufficientFunds | Overflow | FixedSupply

  /** Failures raised by the runtime rather than by the program's own checks. */
  datatype RuntimeError =
    | AccountNotInitialized     // a required account does not exist
    | AccountDiscriminatorNotFound  // a supplied account holds no data, so no stats record
    | ArithmeticPanic           // an unchecked `+=` overflowed

  datatype Error =
    | Program(code: MarketError)
    | Token(token: TokenError)
    | Runtime(runtime: RuntimeError)
}
