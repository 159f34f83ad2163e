/** The program's account records: the market, a user's position record,
    an order and the order book with its account-size arithmetic. */
module State {
  import opened Wrappers
  import opened Arith

  /** A 32-byte public key, kept abstract; `DEFAULT_KEY` is the all-zero key. */
  type Pubkey = nat

  const DEFAULT_KEY: Pubkey := 0

  datatype WinningOutcome = OutcomeA | OutcomeB | Neither

  datatype TokenType = Yes | No

  datatype OrderSide = Buy | Sell

  /** The addresses of the vault, mints and escrows are fixed holders of the
      ledger (see module Ledger) rather than fields here. */
  datatype Market = Market(
    authority: Pubkey,
    marketId: u32,
    settlementDeadline: i64,
    isSettled: bool,
    winningOutcome: Option<WinningOutcome>,
    totalCollateralLocked: u64)

  /** One user's position in one market. */
  datatype UserStats = UserStats(
    user: Pubkey,
    marketId: u32,
    claimableYes: u64,
    lockedYes: u64,
    claimableNo: u64,
    lockedNo: u64,
    claimableCollateral: u64,
    lockedCollateral: u64,
    rewardClaimed: bool)

  /** The contents of a freshly allocated, all-zero stats account. */
  const ZERO_STATS: UserStats := UserStats(DEFAULT_KEY, 0, 0, 0, 0, 0, 0, 0, false)

  datatype Order = Order(
    id: u64,
    marketId: u32,
    userKey: Pubkey,
    side: OrderSide,
    tokenType: TokenType,
    price: u64,
    quantity: u64,
    filledQuantity: u64,
    timestamp: i64)

  datatype OrderBook = OrderBook(
    marketId: u32,
    nextOrderId: u64,
    yesBuyOrders: seq<Order>,
    yesSellOrders: seq<Order>,
    noBuyOrders: seq<Order>,
    noSellOrders: seq<Order>)

  /** Discriminator, market id, next order id, bump and four vector length prefixes. */
  const BASE_SIZE: nat := 8 + 4 + 8 + 1 + 16

  /** Bytes reserved per order (a padded size). */
  const ORDER_SIZE: nat := 80

  /** Serialized width of an order: id, market id, user key, side, token type,
      price, quantity, filled quantity, timestamp. */
  const ORDER_ENCODED_SIZE: nat := 8 + 4 + 32 + 1 + 1 + 8 + 8 + 8 + 8

  /** Account space for a book holding `ordersPerSide` orders in each of its four vectors. */
  function Space(ordersPerSide: nat): nat
  {
    BASE_SIZE + ordersPerSide * ORDER_SIZE * 4
  }

  function TotalOrders(b: OrderBook): nat
  {
    |b.yesBuyOrders| + |b.yesSellOrders| + |b.noBuyOrders| + |b.noSellOrders|
  }

  function LongestSide(b: OrderBook): nat
  {
    Max(Max(Max(|b.yesBuyOrders|, |b.yesSellOrders|), |b.noBuyOrders|), |b.noSellOrders|)
  }

  function CurrentSpaceNeeded(b: OrderBook): nat
  {
    Space(LongestSide(b))
  }

  /** Bytes the book's serialized form actually occupies: the base record and every order. */
  function EncodedSize(b: OrderBook): nat
  {
    BASE_SIZE + ORDER_ENCODED_SIZE * TotalOrders(b)
  }

  lemma SpaceIsAffine(n: nat)
    ensures Space(n) == 37 + 320 * n
    ensures Space(0) == BASE_SIZE == 37
  {
  }

  lemma SpaceStrictlyIncreasing(m: nat, n: nat)
    requires m < n
    ensures Space(m) < Space(n)
  {
    SpaceIsAffine(m);
    SpaceIsAffine(n);
  }

  lemma TotalOrdersBoundedByLongestSide(b: OrderBook)
    ensures TotalOrders(b) <= 4 * LongestSide(b)
    ensures LongestSide(b) <= TotalOrders(b)
    ensures TotalOrders(b) == 0 <==> b.yesBuyOrders == b.yesSellOrders == b.noBuyOrders == b.noSellOrders == []
  {
  }

  /** The space formula never under-counts: it covers the base record plus
      `ORDER_SIZE` bytes for every order in the book, whatever their spread
      over the four sides. */
  lemma CurrentSpaceCoversAllOrders(b: OrderBook)
    ensures CurrentSpaceNeeded(b) >= BASE_SIZE + TotalOrders(b) * ORDER_SIZE
  {
    TotalOrdersBoundedByLongestSide(b);
    var t, l := TotalOrders(b), LongestSide(b);
    assert t * ORDER_SIZE <= 4 * l * ORDER_SIZE by {
      MulMonotone(t, 4 * l, ORDER_SIZE);
    }
    SpaceIsAffine(l);
  }

  /** The padded order size is wide enough for an order's serialized form, so
      the space formula also covers the book's encoding. */
  lemma EncodedSizeFits(b: OrderBook)
    ensures ORDER_ENCODED_SIZE == 78 <= ORDER_SIZE
    ensures EncodedSize(b) <= CurrentSpaceNeeded(b)
  {
    CurrentSpaceCoversAllOrders(b);
    MulMonotone(ORDER_ENCODED_SIZE, ORDER_SIZE, TotalOrders(b));
  }

  lemma MulMonotone(a: nat, b: nat, c: nat)
    requires a <= b
    ensures a * c <= b * c
  {
  }
}
