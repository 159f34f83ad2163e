/** Runs of instructions against one market. A failed instruction aborts
    the whole transaction, so it leaves the snapshot as it found it. */
module Trace {
  import opened Wrappers
  import opened Arith
  import opened Errors
  import opened State
  import opened Ledger
  import opened Lifecycle
  import opened Orders
  import opened Invariants

  datatype Op =
    | Split(user: Pubkey, amount: u64, now: i64)
    | Merge(user: Pubkey, now: i64)
    | Settle(settler: Pubkey, outcome: WinningOutcome, now: i64)
    | Claim(user: Pubkey)
    | Place(user: Pubkey, side: OrderSide, token: TokenType, quantity: u64, price: u64, now: i64, supplied: set<Pubkey>)

  function Apply(s: Snapshot, op: Op): Result<Snapshot, Error>
  {
    match op
    case Split(user, amount, now) => SplitTokens(s, user, amount, now)
    case Merge(user, now) => MergeTokens(s, user, now)
    case Settle(settler, w, now) => SetWinningSide(s, settler, w, now)
    case Claim(user) => ClaimRewards(s, user)
    case Place(user, side, t, q, p, now, supplied) => PlaceOrder(s, user, side, t, q, p, now, supplied)
  }

  function Step(s: Snapshot, op: Op): Snapshot
  {
    var r := Apply(s, op);
    if r.Ok? then r.value else s
  }

  function Run(s: Snapshot, ops: seq<Op>): Snapshot
    decreases |ops|
  {
    if |ops| == 0 then s else Run(Step(s, ops[0]), ops[1..])
  }

  /** Collateral an instruction commits to or releases from backing: a
      split's amount in; a merge's pairs or a claim's redeemed balance out. */
  function LockedDelta(s: Snapshot, op: Op): int
  {
    match op
    case Split(_, amount, _) => amount
    case Merge(user, _) => -(MergeAmount(s.ledger, user) as int)
    case Claim(user) =>
      if s.market.winningOutcome.Some? then
        -(Balance(OutcomeMint(s.ledger, RedeemedToken(s.market.winningOutcome.value)), Wallet(user)) as int)
      else 0
    case _ => 0
  }

  /** Collateral a buy order sends to the vault as custody. */
  function BidDeposit(op: Op): int
  {
    if op.Place? && op.side == Buy then op.quantity * op.price else 0
  }

  /** Sum of splits minus merges minus claims over the successful instructions of a run. */
  ghost function NetLocked(s: Snapshot, ops: seq<Op>): int
    decreases |ops|
  {
    if |ops| == 0 then 0
    else (if Apply(s, ops[0]).Ok? then LockedDelta(s, ops[0]) else 0) + NetLocked(Step(s, ops[0]), ops[1..])
  }

  /** Sum of the custody deposits of the successful buy orders of a run. */
  ghost function NetBids(s: Snapshot, ops: seq<Op>): int
    decreases |ops|
  {
    if |ops| == 0 then 0
    else (if Apply(s, ops[0]).Ok? then BidDeposit(ops[0]) else 0) + NetBids(Step(s, ops[0]), ops[1..])
  }

  lemma StepPreservesInv(s: Snapshot, op: Op)
    requires Inv(s)
    ensures Inv(Step(s, op))
  {
    if Apply(s, op).Ok? {
      match op
      case Split(user, amount, now) => SplitPreservesInv(s, user, amount, now);
      case Merge(user, now) => MergePreservesInv(s, user, now);
      case Settle(settler, w, now) => SetWinningSidePreservesInv(s, settler, w, now);
      case Claim(user) => ClaimPreservesInv(s, user);
      case Place(user, side, t, q, p, now, supplied) => PlaceOrderPreservesInv(s, user, side, t, q, p, now, supplied);
    }
  }

  /** Every reachable snapshot satisfies the accounting invariant. */
  lemma {:induction false} RunPreservesInv(s: Snapshot, ops: seq<Op>)
    requires Inv(s)
    ensures Inv(Run(s, ops))
    decreases |ops|
  {
    if |ops| > 0 {
      StepPreservesInv(s, ops[0]);
      RunPreservesInv(Step(s, ops[0]), ops[1..]);
    }
  }

  /** Locked collateral moves only through splits, merges and claims, and by
      exactly the amounts they name; the vault moves by the same amounts plus
      the custody of buy orders, which nothing here pays back. */
  lemma {:induction false} LockedCollateralIsNetOfSplitsMergesClaims(s: Snapshot, ops: seq<Op>)
    ensures Run(s, ops).market.totalCollateralLocked == s.market.totalCollateralLocked + NetLocked(s, ops)
    ensures Balance(Run(s, ops).ledger.collateral, Vault)
         == Balance(s.ledger.collateral, Vault) + NetLocked(s, ops) + NetBids(s, ops)
    decreases |ops|
  {
    if |ops| > 0 {
      LockedCollateralIsNetOfSplitsMergesClaims(Step(s, ops[0]), ops[1..]);
    }
  }

  /** Once settled, a market stays settled with the same outcome. */
  lemma {:induction false} OutcomeIsFinal(s: Snapshot, ops: seq<Op>)
    requires s.market.isSettled
    ensures Run(s, ops).market.isSettled
    ensures Run(s, ops).market.winningOutcome == s.market.winningOutcome
    decreases |ops|
  {
    if |ops| > 0 {
      OutcomeIsFinal(Step(s, ops[0]), ops[1..]);
    }
  }

  predicate BookEmpty(b: OrderBook)
  {
    b.yesBuyOrders == [] && b.yesSellOrders == [] && b.noBuyOrders == [] && b.noSellOrders == []
  }

  /** No instruction ever adds an order to the book, so a book that starts
      empty stays empty and the matching scan never finds a resting sell. */
  lemma {:induction false} BookStaysEmpty(s: Snapshot, ops: seq<Op>)
    requires BookEmpty(s.book)
    ensures BookEmpty(Run(s, ops).book)
    ensures Run(s, ops).book.marketId == s.book.marketId
    decreases |ops|
  {
    if |ops| > 0 {
      BookStaysEmpty(Step(s, ops[0]), ops[1..]);
    }
  }

  /** Starting from a freshly initialised market, every reachable snapshot
      satisfies the invariant and still has an empty book. */
  lemma MarketFromInitialization(
    authority: Pubkey, marketId: u32, deadline: i64, now: i64, collateral: Mint, ops: seq<Op>)
    requires Vault !in collateral.balances && Consistent(collateral)
    requires InitializeMarket(authority, marketId, deadline, now, collateral).Ok?
    ensures var s := Run(InitializeMarket(authority, marketId, deadline, now, collateral).value, ops);
      Inv(s) && BookEmpty(s.book) &&
      s.market.totalCollateralLocked == NetLocked(InitializeMarket(authority, marketId, deadline, now, collateral).value, ops)
  {
    var s0 := InitializeMarket(authority, marketId, deadline, now, collateral).value;
    InitEstablishesInv(authority, marketId, deadline, now, collateral);
    RunPreservesInv(s0, ops);
    BookStaysEmpty(s0, ops);
    LockedCollateralIsNetOfSplitsMergesClaims(s0, ops);
  }
}
