/** Concrete runs: the cases the repository's end-to-end tests exercise, and
    the matching behaviour of the code as written on a hand-built book. */
module Scenarios {
  import opened Wrappers
  import opened Arith
  import opened Errors
  import opened State
  import opened Ledger
  import opened Lifecycle
  import opened Orders

  const AUTHORITY: Pubkey := 1
  const ALICE: Pubkey := 2
  const BOB: Pubkey := 3

  /** Alice holds 5 collateral units (in millionths), the whole supply. */
  const COLLATERAL: Mint := Mint(map[Wallet(ALICE) := 5_000_000], 5_000_000, true)

  /** A market with deadline 1000, created at time 0. */
  const OPENED: Snapshot := Snapshot(
    Market(AUTHORITY, 7, 1000, false, None, 0),
    OrderBook(7, 0, [], [], [], []),
    map[],
    Ledger(COLLATERAL, Mint(map[], 0, true), Mint(map[], 0, true)))

  lemma InitializeOpensMarket()
    ensures InitializeMarket(AUTHORITY, 7, 1000, 0, COLLATERAL) == Ok(OPENED)
    ensures InitializeMarket(AUTHORITY, 7, 1000, 1000, COLLATERAL) == Err(Program(InvalidSettlementDeadline))
  {
  }

  /** Alice after splitting 3_000_000. */
  const SPLIT: Snapshot := Snapshot(
    OPENED.market.(totalCollateralLocked := 3_000_000),
    OPENED.book,
    map[ALICE := UserStats(ALICE, 7, 0, 0, 0, 0, 0, 0, false)],
    Ledger(
      Mint(map[Wallet(ALICE) := 2_000_000, Vault := 3_000_000], 5_000_000, true),
      Mint(map[Wallet(ALICE) := 3_000_000], 3_000_000, true),
      Mint(map[Wallet(ALICE) := 3_000_000], 3_000_000, true)))

  /** Splitting moves the amount to the vault, mints as many YES and NO and
      locks as much; splitting zero is refused. */
  lemma SplitLocksAndMints()
    ensures SplitTokens(OPENED, ALICE, 3_000_000, 10) == Ok(SPLIT)
    ensures SplitTokens(SPLIT, ALICE, 0, 10) == Err(Program(InvalidAmount))
  {
    var w := Wallet(ALICE);
    assert Balance(COLLATERAL, Vault) == 0;
    assert COLLATERAL.balances[w := 2_000_000][Vault := 3_000_000] == SPLIT.ledger.collateral.balances;
    assert Transfer(COLLATERAL, w, Vault, 3_000_000) == Ok(SPLIT.ledger.collateral);
    assert MintTo(OPENED.ledger.yes, w, 3_000_000) == Ok(SPLIT.ledger.yes);
    assert InitStatsIfNeeded(map[], ALICE, 7) == SPLIT.stats;
  }

  /** Merging returns all 3_000_000 pairs; a second merge finds nothing. */
  lemma MergeUnlocks()
    ensures var r := MergeTokens(SPLIT, ALICE, 20);
      && r.Ok?
      && Balance(r.value.ledger.yes, Wallet(ALICE)) == 0
      && Balance(r.value.ledger.no, Wallet(ALICE)) == 0
      && Balance(r.value.ledger.collateral, Wallet(ALICE)) == 5_000_000
      && Balance(r.value.ledger.collateral, Vault) == 0
      && r.value.market.totalCollateralLocked == 0
      && MergeTokens(r.value, ALICE, 30) == Err(Program(InvalidAmount))
  {
    assert MergeAmount(SPLIT.ledger, ALICE) == 3_000_000;
  }

  /** SPLIT after settling for outcome A. */
  const SETTLED: Snapshot := SPLIT.(
    market := SPLIT.market.(isSettled := true, winningOutcome := Some(OutcomeA)),
    ledger := SPLIT.ledger.(yes := SPLIT.ledger.yes.(mintAuthority := false), no := SPLIT.ledger.no.(mintAuthority := false)))

  /** Anyone may settle; settling again, splitting or merging afterwards is refused. */
  lemma SettleOnce()
    ensures SetWinningSide(SPLIT, BOB, OutcomeA, 20) == Ok(SETTLED)
    ensures SetWinningSide(SETTLED, AUTHORITY, OutcomeB, 30) == Err(Program(MarketAlreadySettled))
    ensures SplitTokens(SETTLED, ALICE, 10_000, 30) == Err(Program(MarketAlreadySettled))
    ensures MergeTokens(SETTLED, ALICE, 30) == Err(Program(MarketAlreadySettled))
    ensures MergeTokens(SETTLED, ALICE, 2000) == Err(Program(MarketExpired))
  {
  }

  /** The claim redeems Alice's 3_000_000 YES; a second claim moves nothing and succeeds. */
  lemma ClaimRedeemsWinningSide()
    ensures var r := ClaimRewards(SETTLED, ALICE);
      && r.Ok?
      && Balance(r.value.ledger.yes, Wallet(ALICE)) == 0
      && Balance(r.value.ledger.no, Wallet(ALICE)) == 3_000_000
      && Balance(r.value.ledger.collateral, Wallet(ALICE)) == 5_000_000
      && r.value.market.totalCollateralLocked == 0
      && ClaimRewards(r.value, ALICE) == Ok(r.value)
  {
    var r := ClaimRewards(SETTLED, ALICE);
    assert Balance(SETTLED.ledger.yes, Wallet(ALICE)) == 3_000_000;
    assert r.Ok?;
    assert Balance(r.value.ledger.yes, Wallet(ALICE)) == 0;
    var r2 := ClaimRewards(r.value, ALICE);
    assert r2.Ok?;
    assert r2.value.ledger.yes == r.value.ledger.yes.(balances := r.value.ledger.yes.balances[Wallet(ALICE) := 0]);
    assert r.value.ledger.yes.balances[Wallet(ALICE) := 0] == r.value.ledger.yes.balances;
    assert r2.value.ledger.collateral.balances == r.value.ledger.collateral.balances;
  }

  /** SPLIT after settling for `Neither`. */
  const SETTLED_NEITHER: Snapshot := SETTLED.(market := SETTLED.market.(winningOutcome := Some(Neither)))

  /** Anyone may settle for `Neither`. */
  lemma SettleNeither()
    ensures SetWinningSide(SPLIT, ALICE, Neither, 20) == Ok(SETTLED_NEITHER)
  {
  }

  /** A `Neither` outcome redeems NO: the claim burns Alice's NO and leaves her YES. */
  lemma NeitherRedeemsNo()
    ensures var r := ClaimRewards(SETTLED_NEITHER, ALICE);
      && r.Ok?
      && Balance(r.value.ledger.no, Wallet(ALICE)) == 0
      && r.value.ledger.yes == SETTLED_NEITHER.ledger.yes
      && Balance(r.value.ledger.collateral, Wallet(ALICE)) == 5_000_000
  {
    var l := SETTLED_NEITHER.ledger;
    assert RedeemedToken(Neither) == No;
    assert Balance(l.no, Wallet(ALICE)) == 3_000_000;
    assert Burn(l.no, Wallet(ALICE), 3_000_000).Ok?;
    assert Transfer(l.collateral, Vault, Wallet(ALICE), 3_000_000).Ok?;
  }

  /** Orders with zero quantity or price are refused before any custody,
      and an uncovered sell is refused when custody is taken. */
  lemma MalformedOrdersRefused()
    ensures PlaceOrder(SPLIT, ALICE, Sell, Yes, 0, 2, 20, {}) == Err(Program(InvalidOrderQuantity))
    ensures PlaceOrder(SPLIT, ALICE, Buy, Yes, 10, 0, 20, {}) == Err(Program(InvalidOrderPrice))
    ensures PlaceOrder(SPLIT, ALICE, Sell, Yes, 3_000_001, 2, 20, {}) == Err(Program(NotEnoughBalance))
  {
  }

  /** A signer with no stats record cannot place an order of any kind: the
      account fails to load before the handler runs. */
  lemma MissingStatsRecordRefused()
    ensures PlaceOrder(SPLIT, BOB, Buy, Yes, 10, 2, 20, {}) == Err(Runtime(AccountNotInitialized))
    ensures PlaceOrder(SPLIT, BOB, Sell, No, 10, 2, 20, {}) == Err(Runtime(AccountNotInitialized))
  {
  }

  /** A sell order moves its tokens to escrow, takes the next id, and is not put in the book. */
  lemma SellIsEscrowedButNotBooked()
    ensures var r := PlaceOrder(SPLIT, ALICE, Sell, Yes, 50, 2, 20, {});
      && r.Ok?
      && Balance(r.value.ledger.yes, Wallet(ALICE)) == 2_999_950
      && Balance(r.value.ledger.yes, YesEscrow) == 50
      && r.value.book.nextOrderId == 1
      && r.value.book.yesSellOrders == []
  {
    assert Transfer(SPLIT.ledger.yes, Wallet(ALICE), YesEscrow, 50).Ok?;
  }

  /** A resting sell of 50 YES at 2 by Alice, written into the book directly
      (no instruction of the program can put it there). */
  const RESTING: Order := Order(0, 7, ALICE, Sell, Yes, 2, 50, 0, 5)

  const EMPTY_STATS: UserStats := UserStats(DEFAULT_KEY, 7, 0, 0, 0, 0, 0, 0, false)

  const BOOKED: Snapshot := OPENED.(
    book := OPENED.book.(nextOrderId := 1, yesSellOrders := [RESTING]),
    stats := map[ALICE := EMPTY_STATS.(user := ALICE), BOB := EMPTY_STATS.(user := BOB)],
    ledger := OPENED.ledger.(collateral := Mint(map[Wallet(ALICE) := 2_500_000, Wallet(BOB) := 2_500_000], 5_000_000, true)))

  /** A buy of `quantity` at 2 by Bob against the resting sell goes through. */
  lemma BuyAgainstRestingSucceeds(quantity: u64)
    requires 0 < quantity <= 50
    ensures PlaceOrder(BOOKED, BOB, Buy, Yes, quantity, 2, 20, {ALICE}).Ok?
  {
    assert Transfer(BOOKED.ledger.collateral, Wallet(BOB), Vault, quantity * 2).Ok?;
    var order := Order(1, 7, BOB, Buy, Yes, 2, quantity, 0, 20);
    assert ExecuteFill(RESTING, order, BOOKED.stats[BOB], BOOKED.stats, {ALICE}).Ok?;
    assert IsFirstCrossingFrom(BOOKED.book.yesSellOrders, 2, 0, 0);
    OneMatchPerCall(BOOKED.book.yesSellOrders, 0, order, BOOKED.stats[BOB], BOOKED.stats, {ALICE});
  }

  /** What that buy does: the resting sell's fill grows by `quantity`, Bob is
      owed `quantity` YES and Alice twice that in collateral. */
  lemma BuyAgainstRestingTrades(quantity: u64)
    requires 0 < quantity <= 50
    ensures var r := PlaceOrder(BOOKED, BOB, Buy, Yes, quantity, 2, 20, {ALICE});
      && r.Ok?
      && r.value.book.yesSellOrders == [RESTING.(filledQuantity := quantity)]
      && r.value.stats[BOB].claimableYes == quantity
      && r.value.stats[ALICE].claimableCollateral == 2 * quantity
      && Balance(r.value.ledger.collateral, Vault) == 2 * quantity
  {
    BuyAgainstRestingSucceeds(quantity);
    assert IsFirstCrossingFrom(BOOKED.book.yesSellOrders, 2, 0, 0);
    PlaceOrderTradesWithFirstCrossing(BOOKED, BOB, quantity, 2, 20, {ALICE}, 0);
    var r := PlaceOrder(BOOKED, BOB, Buy, Yes, quantity, 2, 20, {ALICE}).value;
    assert Min(quantity, Remaining(RESTING)) == quantity;
    assert |r.book.yesSellOrders| == 1;
  }

  /** Bob buys 30 at 2: the resting sell is partly filled, Bob is owed 30 YES
      and Alice 60 collateral. */
  lemma PartialFill()
    ensures var r := PlaceOrder(BOOKED, BOB, Buy, Yes, 30, 2, 20, {ALICE});
      && r.Ok?
      && r.value.book.yesSellOrders == [RESTING.(filledQuantity := 30)]
      && r.value.stats[BOB].claimableYes == 30
      && r.value.stats[ALICE].claimableCollateral == 60
      && Balance(r.value.ledger.collateral, Vault) == 60
  {
    BuyAgainstRestingTrades(30);
  }

  /** Without Alice's record the same buy fails as a whole. */
  lemma PartialFillNeedsSellerStats()
    ensures PlaceOrder(BOOKED, BOB, Buy, Yes, 30, 2, 20, {}) == Err(Program(SellerStatsAccountNotProvided))
  {
    var order := Order(1, 7, BOB, Buy, Yes, 2, 30, 0, 20);
    assert Transfer(BOOKED.ledger.collateral, Wallet(BOB), Vault, 60).Ok?;
    assert IsFirstCrossingFrom(BOOKED.book.yesSellOrders, 2, 0, 0);
    OneMatchPerCall(BOOKED.book.yesSellOrders, 0, order, BOOKED.stats[BOB], BOOKED.stats, {});
  }

  /** Bob buys all 50: the filled sell stays in the vector. */
  lemma FullFillStaysInBook()
    ensures var r := PlaceOrder(BOOKED, BOB, Buy, Yes, 50, 2, 20, {ALICE});
      && r.Ok?
      && r.value.book.yesSellOrders == [RESTING.(filledQuantity := 50)]
      && r.value.stats[BOB].claimableYes == 50
      && r.value.stats[ALICE].claimableCollateral == 100
  {
    BuyAgainstRestingTrades(50);
  }

  /** A book whose first entry is a fully filled sell at 1, then an open sell at 2. */
  const BLOCKED: Snapshot := BOOKED.(
    book := BOOKED.book.(yesSellOrders := [RESTING.(price := 1, filledQuantity := 50), RESTING.(id := 1)]))

  /** A buy at 3 crosses both entries, but the scan spends its one match on
      the filled one: a zero fill, and the open sell behind it is not reached. */
  lemma FilledEntryBlocksTheScan()
    ensures var r := PlaceOrder(BLOCKED, BOB, Buy, Yes, 10, 3, 20, {ALICE});
      && r.Ok?
      && r.value.book.yesSellOrders == BLOCKED.book.yesSellOrders
      && r.value.stats[BOB].claimableYes == 0
  {
    var r := PlaceOrder(BLOCKED, BOB, Buy, Yes, 10, 3, 20, {ALICE});
    assert Transfer(BLOCKED.ledger.collateral, Wallet(BOB), Vault, 30).Ok?;
    var order := Order(1, 7, BOB, Buy, Yes, 3, 10, 0, 20);
    var sells := BLOCKED.book.yesSellOrders;
    assert ExecuteFill(sells[0], order, BLOCKED.stats[BOB], BLOCKED.stats, {ALICE}).Ok?;
    assert IsFirstCrossingFrom(sells, 3, 0, 0);
    OneMatchPerCall(sells, 0, order, BLOCKED.stats[BOB], BLOCKED.stats, {ALICE});
    assert r.Ok?;
    PlaceOrderTradesWithFirstCrossing(BLOCKED, BOB, 10, 3, 20, {ALICE}, 0);
    assert sells[0 := sells[0]] == sells;
  }

  /** A buy below the resting price does not trade, and a NO buy never scans. */
  lemma NonCrossingAndNoOrdersDoNotTrade()
    ensures var r := PlaceOrder(BOOKED, BOB, Buy, Yes, 30, 1, 20, {ALICE});
      r.Ok? && r.value.book.yesSellOrders == [RESTING] && r.value.stats == BOOKED.stats
    ensures var r := PlaceOrder(BOOKED, BOB, Buy, No, 30, 5, 20, {ALICE});
      r.Ok? && r.value.book.yesSellOrders == [RESTING] && r.value.stats == BOOKED.stats
  {
    assert Transfer(BOOKED.ledger.collateral, Wallet(BOB), Vault, 30).Ok?;
    assert Transfer(BOOKED.ledger.collateral, Wallet(BOB), Vault, 150).Ok?;
    var order := Order(1, 7, BOB, Buy, Yes, 1, 30, 0, 20);
    OneMatchPerCall(BOOKED.book.yesSellOrders, 0, order, BOOKED.stats[BOB], BOOKED.stats, {ALICE});
  }

  /** Alice buying against her own sell: her record ends with the YES credit
      only, the collateral credit to her stored record being overwritten. */
  lemma SelfTradeLosesSellerCredit()
    ensures var r := PlaceOrder(BOOKED, ALICE, Buy, Yes, 20, 2, 20, {ALICE});
      && r.Ok?
      && r.value.stats[ALICE].claimableYes == 20
      && r.value.stats[ALICE].claimableCollateral == 0
  {
    var r := PlaceOrder(BOOKED, ALICE, Buy, Yes, 20, 2, 20, {ALICE});
    assert Transfer(BOOKED.ledger.collateral, Wallet(ALICE), Vault, 40).Ok?;
    var order := Order(1, 7, ALICE, Buy, Yes, 2, 20, 0, 20);
    assert ExecuteFill(RESTING, order, BOOKED.stats[ALICE], BOOKED.stats, {ALICE}).Ok?;
    assert IsFirstCrossingFrom(BOOKED.book.yesSellOrders, 2, 0, 0);
    OneMatchPerCall(BOOKED.book.yesSellOrders, 0, order, BOOKED.stats[ALICE], BOOKED.stats, {ALICE});
    assert r.Ok?;
    PlaceOrderTradesWithFirstCrossing(BOOKED, ALICE, 20, 2, 20, {ALICE}, 0);
  }
}
