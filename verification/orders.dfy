/** Order placement: the guards, the up-front custody of the order's funds,
    order-id assignment and the matching scan, which exists only for a YES
    buy against the YES sell vector. As written, the incoming order is never
    stored in the book, filled orders are never removed, nothing is sorted
    and the scan stops after its first crossing entry. */
module Orders {
  import opened Wrappers
  import opened Arith
  import opened Errors
  import opened State
  import opened Ledger
  import opened Lifecycle

  /** The scan runs while `iteration <= MAX_ITERATION`; each crossing entry
      consumes one iteration, so one is all it gets. */
  const MAX_ITERATION: nat := 0

  /** Quantity of an order still open. */
  function Remaining(o: Order): int
  {
    o.quantity - o.filledQuantity
  }

  /** No order is filled beyond its quantity. */
  ghost predicate FillsBounded(orders: seq<Order>)
  {
    forall i :: 0 <= i < |orders| ==> orders[i].filledQuantity <= orders[i].quantity
  }

  /** Sum of the filled quantities of a vector. */
  ghost function TotalFilled(orders: seq<Order>): nat
  {
    if |orders| == 0 then 0
    else TotalFilled(orders[..|orders| - 1]) + orders[|orders| - 1].filledQuantity
  }

  lemma {:induction false} TotalFilledUpdate(orders: seq<Order>, i: nat, o: Order)
    requires i < |orders|
    ensures TotalFilled(orders[i := o]) == TotalFilled(orders) - orders[i].filledQuantity + o.filledQuantity
    decreases |orders|
  {
    var n := |orders| - 1;
    var updated := orders[i := o];
    if i < n {
      assert updated[..n] == orders[..n][i := o];
      TotalFilledUpdate(orders[..n], i, o);
    } else {
      assert updated[..n] == orders[..n];
    }
  }

  /** What one trade leaves behind. */
  datatype Fill = Fill(resting: Order, incoming: Order, buyer: UserStats, store: map<Pubkey, UserStats>)

  /** One trade between the incoming buy and a crossing resting sell:
      `fill = min(buyer remaining, seller remaining)`, both orders' filled
      quantities grow by it, the buyer is owed `fill` YES and the seller
      `fill * resting price` collateral. The seller's stats record must be
      among the `supplied` accounts, or the whole call fails. */
  function ExecuteFill(
    resting: Order, incoming: Order, buyer: UserStats,
    store: map<Pubkey, UserStats>, supplied: set<Pubkey>)
    : (r: Result<Fill, Error>)
    ensures resting.userKey !in supplied ==> r.Err?
    ensures r.Err? ==> r.error in {Program(MathOverflow), Program(SellerStatsAccountNotProvided), Runtime(AccountDiscriminatorNotFound)}
    ensures r.Err? && r.error == Program(SellerStatsAccountNotProvided) ==> resting.userKey !in supplied
    ensures incoming.filledQuantity <= incoming.quantity && resting.filledQuantity <= resting.quantity ==>
      var q := Min(Remaining(incoming), Remaining(resting));
      var seller := resting.userKey;
      q * resting.price <= U64_MAX && buyer.claimableYes + q <= U64_MAX && seller in supplied ==>
        && (seller !in store ==> r == Err(Runtime(AccountDiscriminatorNotFound)))
        && (seller in store ==>
              (r.Ok? <==> store[seller].claimableCollateral + q * resting.price <= U64_MAX))
    ensures r.Ok? ==>
      var q := Min(Remaining(incoming), Remaining(resting));
      var seller := resting.userKey;
      && 0 <= q
      && r.value.resting.filledQuantity == resting.filledQuantity + q
      && r.value.resting == resting.(filledQuantity := r.value.resting.filledQuantity)
      && r.value.incoming.filledQuantity == incoming.filledQuantity + q
      && r.value.incoming == incoming.(filledQuantity := r.value.incoming.filledQuantity)
      && r.value.buyer.claimableYes == buyer.claimableYes + q
      && r.value.buyer == buyer.(claimableYes := r.value.buyer.claimableYes)
      && seller in supplied && seller in store
      && r.value.store.Keys == store.Keys
      && r.value.store[seller].claimableCollateral == store[seller].claimableCollateral + q * resting.price
      && r.value.store[seller] == store[seller].(claimableCollateral := r.value.store[seller].claimableCollateral)
      && (forall k :: k in store && k != seller ==> r.value.store[k] == store[k])
  {
    var buyerLeft :- CheckedSub(incoming.quantity, incoming.filledQuantity).OkOr(Program(MathOverflow));
    var sellerLeft :- CheckedSub(resting.quantity, resting.filledQuantity).OkOr(Program(MathOverflow));
    var q: u64 := Min(buyerLeft, sellerLeft);
    // The two checked additions of the fill cannot fail: `q` is at most
    // what remains of either order, so each sum is at most a quantity.
    var restingFilled: u64 := resting.filledQuantity + q;
    var incomingFilled: u64 := incoming.filledQuantity + q;
    var value :- CheckedMul(q, resting.price).OkOr(Program(MathOverflow));
    var claimableYes :- CheckedAdd(buyer.claimableYes, q).OkOr(Program(MathOverflow));
    var seller := resting.userKey;
    if seller !in supplied then Err(Program(SellerStatsAccountNotProvided))
    else if seller !in store then Err(Runtime(AccountDiscriminatorNotFound))
    else
      var credited :- CheckedAdd(store[seller].claimableCollateral, value).OkOr(Program(MathOverflow));
      Ok(Fill(
        resting.(filledQuantity := restingFilled),
        incoming.(filledQuantity := incomingFilled),
        buyer.(claimableYes := claimableYes),
        store[seller := store[seller].(claimableCollateral := credited)]))
  }

  /** Where the scan stands: the sell vector, the incoming order, the
      signer's in-memory stats, the stats accounts as stored, and the
      iteration counter. */
  datatype Scan = Scan(
    sells: seq<Order>, incoming: Order, buyer: UserStats,
    store: map<Pubkey, UserStats>, iteration: nat)

  /** The matching loop from position `idx`: entries the buy price does not
      cross are skipped; a crossing entry trades (even for a zero fill) and
      consumes an iteration; the loop ends at the vector's end or once the
      counter passes `maxIteration`. */
  function MatchYesBuy(
    sells: seq<Order>, idx: nat, iteration: nat, maxIteration: nat,
    incoming: Order, buyer: UserStats, store: map<Pubkey, UserStats>, supplied: set<Pubkey>)
    : (r: Result<Scan, Error>)
    requires idx <= |sells|
    decreases |sells| - idx
    ensures r.Ok? ==> |r.value.sells| == |sells|
    ensures r.Ok? ==> iteration <= r.value.iteration
    ensures r.Ok? && iteration <= maxIteration + 1 ==> r.value.iteration <= maxIteration + 1
  {
    if idx == |sells| || iteration > maxIteration then
      Ok(Scan(sells, incoming, buyer, store, iteration))
    else if incoming.price >= sells[idx].price then
      var f :- ExecuteFill(sells[idx], incoming, buyer, store, supplied);
      MatchYesBuy(sells[idx := f.resting], idx + 1, iteration + 1, maxIteration, f.incoming, f.buyer, f.store, supplied)
    else
      MatchYesBuy(sells, idx + 1, iteration, maxIteration, incoming, buyer, store, supplied)
  }

  /** The scan changes nothing but filled quantities, only ever raises them,
      and leaves alone every entry before `idx` and every entry the buy price
      does not cross. */
  lemma {:induction false} ScanTouchesOnlyCrossingFills(
    sells: seq<Order>, idx: nat, iteration: nat, maxIteration: nat,
    incoming: Order, buyer: UserStats, store: map<Pubkey, UserStats>, supplied: set<Pubkey>)
    requires idx <= |sells|
    requires MatchYesBuy(sells, idx, iteration, maxIteration, incoming, buyer, store, supplied).Ok?
    ensures var r := MatchYesBuy(sells, idx, iteration, maxIteration, incoming, buyer, store, supplied).value;
      && (forall i :: 0 <= i < |sells| ==>
            && r.sells[i] == sells[i].(filledQuantity := r.sells[i].filledQuantity)
            && sells[i].filledQuantity <= r.sells[i].filledQuantity)
      && (forall i :: 0 <= i < |sells| && (i < idx || sells[i].price > incoming.price) ==> r.sells[i] == sells[i])
      && r.incoming == incoming.(filledQuantity := r.incoming.filledQuantity)
      && r.buyer == buyer.(claimableYes := r.buyer.claimableYes)
    decreases |sells| - idx
  {
    if idx == |sells| || iteration > maxIteration {
    } else if incoming.price >= sells[idx].price {
      var f := ExecuteFill(sells[idx], incoming, buyer, store, supplied).value;
      ScanTouchesOnlyCrossingFills(sells[idx := f.resting], idx + 1, iteration + 1, maxIteration, f.incoming, f.buyer, f.store, supplied);
    } else {
      ScanTouchesOnlyCrossingFills(sells, idx + 1, iteration, maxIteration, incoming, buyer, store, supplied);
    }
  }

  /** The scan never fills an order beyond its quantity, resting or incoming. */
  lemma {:induction false} ScanKeepsFillsBounded(
    sells: seq<Order>, idx: nat, iteration: nat, maxIteration: nat,
    incoming: Order, buyer: UserStats, store: map<Pubkey, UserStats>, supplied: set<Pubkey>)
    requires idx <= |sells|
    requires FillsBounded(sells) && incoming.filledQuantity <= incoming.quantity
    requires MatchYesBuy(sells, idx, iteration, maxIteration, incoming, buyer, store, supplied).Ok?
    ensures var r := MatchYesBuy(sells, idx, iteration, maxIteration, incoming, buyer, store, supplied).value;
      FillsBounded(r.sells) && r.incoming.filledQuantity <= r.incoming.quantity
    decreases |sells| - idx
  {
    if idx == |sells| || iteration > maxIteration {
    } else if incoming.price >= sells[idx].price {
      var f := ExecuteFill(sells[idx], incoming, buyer, store, supplied).value;
      ScanKeepsFillsBounded(sells[idx := f.resting], idx + 1, iteration + 1, maxIteration, f.incoming, f.buyer, f.store, supplied);
    } else {
      ScanKeepsFillsBounded(sells, idx + 1, iteration, maxIteration, incoming, buyer, store, supplied);
    }
  }

  /** Every unit the buyer is credited is a unit filled on both sides: the
      incoming order's fill, the buyer's claimable YES and the total fill of
      the resting sells all grow by the same amount. */
  lemma {:induction false} ScanConservesFills(
    sells: seq<Order>, idx: nat, iteration: nat, maxIteration: nat,
    incoming: Order, buyer: UserStats, store: map<Pubkey, UserStats>, supplied: set<Pubkey>)
    requires idx <= |sells|
    requires MatchYesBuy(sells, idx, iteration, maxIteration, incoming, buyer, store, supplied).Ok?
    ensures var r := MatchYesBuy(sells, idx, iteration, maxIteration, incoming, buyer, store, supplied).value;
      && r.incoming.filledQuantity - incoming.filledQuantity == r.buyer.claimableYes - buyer.claimableYes
      && r.buyer.claimableYes - buyer.claimableYes == TotalFilled(r.sells) - TotalFilled(sells)
    decreases |sells| - idx
  {
    if idx == |sells| || iteration > maxIteration {
    } else if incoming.price >= sells[idx].price {
      var f := ExecuteFill(sells[idx], incoming, buyer, store, supplied).value;
      TotalFilledUpdate(sells, idx, f.resting);
      ScanConservesFills(sells[idx := f.resting], idx + 1, iteration + 1, maxIteration, f.incoming, f.buyer, f.store, supplied);
    } else {
      ScanConservesFills(sells, idx + 1, iteration, maxIteration, incoming, buyer, store, supplied);
    }
  }

  /** Stored stats records only ever gain claimable collateral; no record is
      created or dropped and no other field moves. */
  lemma {:induction false} ScanOnlyCreditsSellers(
    sells: seq<Order>, idx: nat, iteration: nat, maxIteration: nat,
    incoming: Order, buyer: UserStats, store: map<Pubkey, UserStats>, supplied: set<Pubkey>)
    requires idx <= |sells|
    requires MatchYesBuy(sells, idx, iteration, maxIteration, incoming, buyer, store, supplied).Ok?
    ensures var r := MatchYesBuy(sells, idx, iteration, maxIteration, incoming, buyer, store, supplied).value;
      && r.store.Keys == store.Keys
      && forall k :: k in store ==>
           && r.store[k] == store[k].(claimableCollateral := r.store[k].claimableCollateral)
           && store[k].claimableCollateral <= r.store[k].claimableCollateral
    decreases |sells| - idx
  {
    if idx == |sells| || iteration > maxIteration {
    } else if incoming.price >= sells[idx].price {
      var f := ExecuteFill(sells[idx], incoming, buyer, store, supplied).value;
      ScanOnlyCreditsSellers(sells[idx := f.resting], idx + 1, iteration + 1, maxIteration, f.incoming, f.buyer, f.store, supplied);
    } else {
      ScanOnlyCreditsSellers(sells, idx + 1, iteration, maxIteration, incoming, buyer, store, supplied);
    }
  }

  /** `i` is the first entry from `from` on that the buy price crosses. */
  ghost predicate IsFirstCrossingFrom(sells: seq<Order>, price: u64, from: nat, i: int)
  {
    && from <= i < |sells|
    && sells[i].price <= price
    && forall j :: from <= j < i ==> sells[j].price > price
  }

  /** The scan's result when it trades with entry `i` and then stops. */
  function TradeAt(
    sells: seq<Order>, i: nat,
    incoming: Order, buyer: UserStats, store: map<Pubkey, UserStats>, supplied: set<Pubkey>)
    : Result<Scan, Error>
    requires i < |sells|
  {
    var f :- ExecuteFill(sells[i], incoming, buyer, store, supplied);
    Ok(Scan(sells[i := f.resting], f.incoming, f.buyer, f.store, 1))
  }

  /** With `MAX_ITERATION = 0` the scan is exactly: no crossing entry, no
      change; otherwise one trade with the first crossing entry and nothing
      after it, whatever that trade's size (a zero fill included). */
  lemma {:induction false} OneMatchPerCall(
    sells: seq<Order>, idx: nat,
    incoming: Order, buyer: UserStats, store: map<Pubkey, UserStats>, supplied: set<Pubkey>)
    requires idx <= |sells|
    ensures var r := MatchYesBuy(sells, idx, 0, MAX_ITERATION, incoming, buyer, store, supplied);
      && ((forall j :: idx <= j < |sells| ==> sells[j].price > incoming.price) ==>
            r == Ok(Scan(sells, incoming, buyer, store, 0)))
      && (forall i :: IsFirstCrossingFrom(sells, incoming.price, idx, i) ==>
            r == TradeAt(sells, i, incoming, buyer, store, supplied))
    decreases |sells| - idx
  {
    if idx == |sells| {
    } else if incoming.price >= sells[idx].price {
      forall i | IsFirstCrossingFrom(sells, incoming.price, idx, i)
        ensures i == idx
      {
      }
    } else {
      OneMatchPerCall(sells, idx + 1, incoming, buyer, store, supplied);
      forall i | IsFirstCrossingFrom(sells, incoming.price, idx, i)
        ensures IsFirstCrossingFrom(sells, incoming.price, idx + 1, i)
      {
      }
    }
  }

  /** Custody taken when an order is placed: a sell moves `quantity` tokens
      to that token's escrow, a buy moves `notional` collateral to the vault.
      The caller must hold enough beforehand. */
  function TakeCustody(l: Ledger, user: Pubkey, side: OrderSide, t: TokenType, quantity: u64, notional: u64)
    : (r: Result<Ledger, Error>)
    ensures side == Sell && Balance(OutcomeMint(l, t), Wallet(user)) < quantity ==> r == Err(Program(NotEnoughBalance))
    ensures side == Buy && Balance(l.collateral, Wallet(user)) < notional ==> r == Err(Program(NotEnoughBalance))
    ensures side == Sell && quantity <= Balance(OutcomeMint(l, t), Wallet(user)) ==>
      r.Ok? || r == Err(Token(Overflow))
    ensures side == Buy && notional <= Balance(l.collateral, Wallet(user)) ==>
      r.Ok? || r == Err(Token(Overflow))
    ensures r.Ok? && side == Sell ==>
      var m, m' := OutcomeMint(l, t), OutcomeMint(r.value, t);
      && Balance(m', Wallet(user)) == Balance(m, Wallet(user)) - quantity
      && Balance(m', EscrowOf(t)) == Balance(m, EscrowOf(t)) + quantity
      && (forall h :: h != Wallet(user) && h != EscrowOf(t) ==> Balance(m', h) == Balance(m, h))
      && m'.supply == m.supply && m'.mintAuthority == m.mintAuthority
      && OutcomeMint(r.value, OtherToken(t)) == OutcomeMint(l, OtherToken(t))
      && r.value.collateral == l.collateral
    ensures r.Ok? && side == Buy ==>
      && Balance(r.value.collateral, Wallet(user)) == Balance(l.collateral, Wallet(user)) - notional
      && Balance(r.value.collateral, Vault) == Balance(l.collateral, Vault) + notional
      && (forall h :: h != Wallet(user) && h != Vault ==> Balance(r.value.collateral, h) == Balance(l.collateral, h))
      && r.value.collateral.supply == l.collateral.supply
      && r.value.collateral.mintAuthority == l.collateral.mintAuthority
      && r.value.yes == l.yes && r.value.no == l.no
  {
    if side == Sell then
      if Balance(OutcomeMint(l, t), Wallet(user)) < quantity then Err(Program(NotEnoughBalance))
      else
        var m :- Transfer(OutcomeMint(l, t), Wallet(user), EscrowOf(t), quantity);
        Ok(WithOutcomeMint(l, t, m))
    else
      if Balance(l.collateral, Wallet(user)) < notional then Err(Program(NotEnoughBalance))
      else
        var c :- Transfer(l.collateral, Wallet(user), Vault, notional);
        Ok(l.(collateral := c))
  }

  /** Places an order. The signer's stats account must exist (the account
      list requires it); the guards then run in the program's order, custody
      is taken, the order gets the next id, and a YES buy runs the scan.
      `supplied` names the users whose stats accounts the caller passed
      alongside; the signer's record, held in memory for the whole call, is
      written back last. */
  function PlaceOrder(
    s: Snapshot, user: Pubkey, side: OrderSide, tokenType: TokenType,
    quantity: u64, price: u64, now: i64, supplied: set<Pubkey>)
    : (r: Result<Snapshot, Error>)
    ensures user !in s.stats ==> r == Err(Runtime(AccountNotInitialized))
    ensures user in s.stats && now >= s.market.settlementDeadline ==> r == Err(Program(MarketExpired))
    ensures user in s.stats && now < s.market.settlementDeadline && s.market.isSettled ==>
      r == Err(Program(MarketAlreadySettled))
    ensures user in s.stats && Open(s.market, now) && quantity == 0 ==> r == Err(Program(InvalidOrderQuantity))
    ensures user in s.stats && Open(s.market, now) && quantity > 0 && price == 0 ==>
      r == Err(Program(InvalidOrderPrice))
    ensures user in s.stats && Open(s.market, now) && quantity > 0 && price > 0 && quantity * price > U64_MAX ==>
      r == Err(Program(MathOverflow))
    ensures user in s.stats && Open(s.market, now) && quantity > 0 && price > 0 && quantity * price <= U64_MAX ==>
      && (side == Sell && Balance(OutcomeMint(s.ledger, tokenType), Wallet(user)) < quantity ==>
            r == Err(Program(NotEnoughBalance)))
      && (side == Buy && Balance(s.ledger.collateral, Wallet(user)) < quantity * price ==>
            r == Err(Program(NotEnoughBalance)))
    ensures r.Ok? ==> user in s.stats && Open(s.market, now) && quantity > 0 && price > 0 && quantity * price <= U64_MAX
    ensures r.Ok? ==>
      var b, b' := s.book, r.value.book;
      && b'.nextOrderId == b.nextOrderId + 1
      && b'.marketId == b.marketId
      && b'.yesBuyOrders == b.yesBuyOrders && b'.noBuyOrders == b.noBuyOrders && b'.noSellOrders == b.noSellOrders
      && |b'.yesSellOrders| == |b.yesSellOrders|
      && (tokenType == No || side == Sell ==> b'.yesSellOrders == b.yesSellOrders && r.value.stats == s.stats)
      && r.value.market == s.market
      && r.value.stats.Keys == s.stats.Keys
    ensures r.Ok? ==> TakeCustody(s.ledger, user, side, tokenType, quantity, quantity * price) == Ok(r.value.ledger)
  {
    if user !in s.stats then Err(Runtime(AccountNotInitialized))
    else if now >= s.market.settlementDeadline then Err(Program(MarketExpired))
    else if s.market.isSettled then Err(Program(MarketAlreadySettled))
    else if quantity == 0 then Err(Program(InvalidOrderQuantity))
    else if price == 0 then Err(Program(InvalidOrderPrice))
    else
      var notional :- CheckedMul(quantity, price).OkOr(Program(MathOverflow));
      var ledger :- TakeCustody(s.ledger, user, side, tokenType, quantity, notional);
      if s.book.nextOrderId == U64_MAX then Err(Runtime(ArithmeticPanic))
      else
        var order := Order(s.book.nextOrderId, s.market.marketId, user, side, tokenType, price, quantity, 0, now);
        var book := s.book.(nextOrderId := s.book.nextOrderId + 1);
        if tokenType == Yes && side == Buy then
          var scan :- MatchYesBuy(book.yesSellOrders, 0, 0, MAX_ITERATION, order, s.stats[user], s.stats, supplied);
          ScanOnlyCreditsSellers(book.yesSellOrders, 0, 0, MAX_ITERATION, order, s.stats[user], s.stats, supplied);
          Ok(Snapshot(s.market, book.(yesSellOrders := scan.sells), scan.store[user := scan.buyer], ledger))
        else
          Ok(s.(book := book, ledger := ledger))
  }

  /** Placing an order changes no stats record except by raising its
      claimable YES or claimable collateral: the `locked_*` counters, owners
      and market ids stay as they were, and no record appears or vanishes. */
  lemma PlaceOrderOnlyRaisesClaimables(
    s: Snapshot, user: Pubkey, side: OrderSide, t: TokenType,
    quantity: u64, price: u64, now: i64, supplied: set<Pubkey>)
    requires PlaceOrder(s, user, side, t, quantity, price, now, supplied).Ok?
    ensures var r := PlaceOrder(s, user, side, t, quantity, price, now, supplied).value;
      && r.stats.Keys == s.stats.Keys
      && forall k :: k in s.stats ==>
           && r.stats[k] == s.stats[k].(claimableYes := r.stats[k].claimableYes,
                                        claimableCollateral := r.stats[k].claimableCollateral)
           && s.stats[k].claimableYes <= r.stats[k].claimableYes
           && s.stats[k].claimableCollateral <= r.stats[k].claimableCollateral
  {
    if t == Yes && side == Buy {
      var order := Order(s.book.nextOrderId, s.market.marketId, user, side, t, price, quantity, 0, now);
      ScanOnlyCreditsSellers(s.book.yesSellOrders, 0, 0, MAX_ITERATION, order, s.stats[user], s.stats, supplied);
      ScanTouchesOnlyCrossingFills(s.book.yesSellOrders, 0, 0, MAX_ITERATION, order, s.stats[user], s.stats, supplied);
      ScanConservesFills(s.book.yesSellOrders, 0, 0, MAX_ITERATION, order, s.stats[user], s.stats, supplied);
    }
  }

  /** A YES buy that crosses no resting sell trades with nobody. */
  lemma PlaceOrderWithoutCrossing(
    s: Snapshot, user: Pubkey, quantity: u64, price: u64, now: i64, supplied: set<Pubkey>)
    requires forall j :: 0 <= j < |s.book.yesSellOrders| ==> s.book.yesSellOrders[j].price > price
    requires PlaceOrder(s, user, Buy, Yes, quantity, price, now, supplied).Ok?
    ensures var r := PlaceOrder(s, user, Buy, Yes, quantity, price, now, supplied).value;
      r.book.yesSellOrders == s.book.yesSellOrders && r.stats == s.stats
  {
    var order := Order(s.book.nextOrderId, s.market.marketId, user, Buy, Yes, price, quantity, 0, now);
    OneMatchPerCall(s.book.yesSellOrders, 0, order, s.stats[user], s.stats, supplied);
  }

  /** A YES buy trades with the first resting sell its price crosses and with
      no other entry: that entry's fill grows by `min(quantity, its remaining)`,
      the buyer is owed as many YES, and a seller other than the signer is
      owed that many times the resting price in collateral. When the seller
      is the signer, the signer's record comes out with only the YES credit:
      the collateral credit written to the stored record is overwritten. */
  lemma PlaceOrderTradesWithFirstCrossing(
    s: Snapshot, user: Pubkey, quantity: u64, price: u64, now: i64, supplied: set<Pubkey>, i: nat)
    requires IsFirstCrossingFrom(s.book.yesSellOrders, price, 0, i)
    requires PlaceOrder(s, user, Buy, Yes, quantity, price, now, supplied).Ok?
    ensures var r := PlaceOrder(s, user, Buy, Yes, quantity, price, now, supplied).value;
      var sells, sells' := s.book.yesSellOrders, r.book.yesSellOrders;
      var q := Min(quantity, Remaining(sells[i]));
      var seller := sells[i].userKey;
      && 0 <= q
      && sells'[i].filledQuantity == sells[i].filledQuantity + q
      && sells'[i] == sells[i].(filledQuantity := sells'[i].filledQuantity)
      && (forall j :: 0 <= j < |sells| && j != i ==> sells'[j] == sells[j])
      && seller in supplied && seller in s.stats && user in s.stats
      && r.stats[user].claimableYes == s.stats[user].claimableYes + q
      && r.stats[user] == s.stats[user].(claimableYes := r.stats[user].claimableYes)
      && (seller != user ==>
            && r.stats[seller].claimableCollateral == s.stats[seller].claimableCollateral + q * sells[i].price
            && r.stats[seller] == s.stats[seller].(claimableCollateral := r.stats[seller].claimableCollateral))
      && (forall k :: k in s.stats && k != user && k != seller ==> r.stats[k] == s.stats[k])
  {
    var order := Order(s.book.nextOrderId, s.market.marketId, user, Buy, Yes, price, quantity, 0, now);
    OneMatchPerCall(s.book.yesSellOrders, 0, order, s.stats[user], s.stats, supplied);
  }

  /** The counterparty's record is looked up and the call fails closed: if
      the first crossing sell's owner was not supplied, nothing happens. */
  lemma MissingSellerStatsFailsClosed(
    s: Snapshot, user: Pubkey, quantity: u64, price: u64, now: i64, supplied: set<Pubkey>, i: nat)
    requires IsFirstCrossingFrom(s.book.yesSellOrders, price, 0, i)
    requires s.book.yesSellOrders[i].userKey !in supplied
    ensures PlaceOrder(s, user, Buy, Yes, quantity, price, now, supplied).Err?
  {
    var order := Order(s.book.nextOrderId, s.market.marketId, user, Buy, Yes, price, quantity, 0, now);
    if user in s.stats {
      OneMatchPerCall(s.book.yesSellOrders, 0, order, s.stats[user], s.stats, supplied);
    }
  }
}
