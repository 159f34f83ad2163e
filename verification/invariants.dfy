/** The market's accounting invariant and the proofs that every instruction
    keeps it. Before settlement every unit of locked collateral backs exactly
    one YES and one NO; after it, one unit of the redeemed token. The vault
    always holds at least the locked collateral (it also holds buy orders'
    collateral, which nothing pays out). */
module Invariants {
  import opened Wrappers
  import opened Arith
  import opened Errors
  import opened State
  import opened Ledger
  import opened Lifecycle
  import opened Orders

  ghost predicate Inv(s: Snapshot)
  {
    var m, l := s.market, s.ledger;
    && Consistent(l.collateral) && Consistent(l.yes) && Consistent(l.no)
    && (m.isSettled <==> m.winningOutcome.Some?)
    && (!m.isSettled ==>
          && m.totalCollateralLocked == l.yes.supply
          && m.totalCollateralLocked == l.no.supply
          && l.yes.mintAuthority && l.no.mintAuthority)
    && (m.isSettled ==>
          && m.totalCollateralLocked == OutcomeMint(l, RedeemedToken(m.winningOutcome.value)).supply
          && !l.yes.mintAuthority && !l.no.mintAuthority)
    && m.totalCollateralLocked <= Balance(l.collateral, Vault)
    && FillsBounded(s.book.yesSellOrders)
  }

  lemma InitEstablishesInv(authority: Pubkey, marketId: u32, deadline: i64, now: i64, collateral: Mint)
    requires Vault !in collateral.balances && Consistent(collateral)
    requires InitializeMarket(authority, marketId, deadline, now, collateral).Ok?
    ensures Inv(InitializeMarket(authority, marketId, deadline, now, collateral).value)
  {
  }

  lemma SplitPreservesInv(s: Snapshot, user: Pubkey, amount: u64, now: i64)
    requires Inv(s)
    requires SplitTokens(s, user, amount, now).Ok?
    ensures Inv(SplitTokens(s, user, amount, now).value)
  {
    var l := s.ledger;
    TransferKeepsConsistent(l.collateral, Wallet(user), Vault, amount);
    MintToKeepsConsistent(l.yes, Wallet(user), amount);
    MintToKeepsConsistent(l.no, Wallet(user), amount);
  }

  /** With the invariant in place a split fails only on its three guards or
      on the caller's missing collateral: the overflow checks never fire. */
  lemma SplitFailsOnlyOnGuardsOrFunds(s: Snapshot, user: Pubkey, amount: u64, now: i64)
    requires Inv(s)
    requires amount > 0 && Open(s.market, now)
    ensures var r := SplitTokens(s, user, amount, now);
      && (Balance(s.ledger.collateral, Wallet(user)) >= amount ==> r.Ok?)
      && (Balance(s.ledger.collateral, Wallet(user)) < amount ==> r == Err(Token(InsufficientFunds)))
  {
    var l := s.ledger;
    if Balance(l.collateral, Wallet(user)) >= amount {
      CoveredTransferSucceeds(l.collateral, Wallet(user), Vault, amount);
      var c := Transfer(l.collateral, Wallet(user), Vault, amount).value;
      assert l.yes.supply + amount <= Balance(c, Vault);
      MintWithinSupplySucceeds(l.yes, Wallet(user), amount);
      MintWithinSupplySucceeds(l.no, Wallet(user), amount);
    }
  }

  lemma MergePreservesInv(s: Snapshot, user: Pubkey, now: i64)
    requires Inv(s)
    requires MergeTokens(s, user, now).Ok?
    ensures Inv(MergeTokens(s, user, now).value)
  {
    var l, a := s.ledger, MergeAmount(s.ledger, user);
    BurnKeepsConsistent(l.yes, Wallet(user), a);
    BurnKeepsConsistent(l.no, Wallet(user), a);
    TransferKeepsConsistent(l.collateral, Vault, Wallet(user), a);
  }

  /** With the invariant in place a merge fails only on its three guards: the
      burns, the payout and the subtraction are always covered. */
  lemma MergeFailsOnlyOnGuards(s: Snapshot, user: Pubkey, now: i64)
    requires Inv(s)
    requires Open(s.market, now) && MergeAmount(s.ledger, user) > 0
    ensures MergeTokens(s, user, now).Ok?
  {
    var l, a := s.ledger, MergeAmount(s.ledger, user);
    BalancesBelowSupply(l.yes, Wallet(user), Vault);
    CoveredBurnSucceeds(l.yes, Wallet(user), a);
    CoveredBurnSucceeds(l.no, Wallet(user), a);
    CoveredTransferSucceeds(l.collateral, Vault, Wallet(user), a);
  }

  lemma SetWinningSidePreservesInv(s: Snapshot, settler: Pubkey, w: WinningOutcome, now: i64)
    requires Inv(s)
    requires SetWinningSide(s, settler, w, now).Ok?
    ensures Inv(SetWinningSide(s, settler, w, now).value)
  {
  }

  /** With the invariant in place an open market can always be settled, by anyone. */
  lemma SettlementFailsOnlyOnGuards(s: Snapshot, settler: Pubkey, w: WinningOutcome, now: i64)
    requires Inv(s)
    requires Open(s.market, now)
    ensures SetWinningSide(s, settler, w, now).Ok?
  {
  }

  lemma ClaimPreservesInv(s: Snapshot, user: Pubkey)
    requires Inv(s)
    requires ClaimRewards(s, user).Ok?
    ensures Inv(ClaimRewards(s, user).value)
  {
    var t := RedeemedToken(s.market.winningOutcome.value);
    var m := OutcomeMint(s.ledger, t);
    var a := Balance(m, Wallet(user));
    BurnKeepsConsistent(m, Wallet(user), a);
    TransferKeepsConsistent(s.ledger.collateral, Vault, Wallet(user), a);
  }

  /** With the invariant in place a claim on a settled market always
      succeeds: the outcome is recorded, the burn and payout are covered and
      the subtraction cannot underflow. */
  lemma ClaimFailsOnlyWhenUnsettled(s: Snapshot, user: Pubkey)
    requires Inv(s)
    ensures ClaimRewards(s, user).Ok? <==> s.market.isSettled
  {
    if s.market.isSettled {
      var t := RedeemedToken(s.market.winningOutcome.value);
      var m := OutcomeMint(s.ledger, t);
      var a := Balance(m, Wallet(user));
      BalancesBelowSupply(m, Wallet(user), Vault);
      CoveredBurnSucceeds(m, Wallet(user), a);
      CoveredTransferSucceeds(s.ledger.collateral, Vault, Wallet(user), a);
    }
  }

  lemma PlaceOrderPreservesInv(
    s: Snapshot, user: Pubkey, side: OrderSide, t: TokenType,
    quantity: u64, price: u64, now: i64, supplied: set<Pubkey>)
    requires Inv(s)
    requires PlaceOrder(s, user, side, t, quantity, price, now, supplied).Ok?
    ensures Inv(PlaceOrder(s, user, side, t, quantity, price, now, supplied).value)
  {
    var r := PlaceOrder(s, user, side, t, quantity, price, now, supplied).value;
    var l := s.ledger;
    if side == Sell {
      TransferKeepsConsistent(OutcomeMint(l, t), Wallet(user), EscrowOf(t), quantity);
    } else {
      TransferKeepsConsistent(l.collateral, Wallet(user), Vault, quantity * price);
    }
    if t == Yes && side == Buy {
      var order := Order(s.book.nextOrderId, s.market.marketId, user, side, t, price, quantity, 0, now);
      ScanKeepsFillsBounded(s.book.yesSellOrders, 0, 0, MAX_ITERATION, order, s.stats[user], s.stats, supplied);
    }
  }

  /** With the invariant in place, a covered YES buy whose first crossing
      sell belongs to a user who did not supply a stats record fails with
      `SellerStatsAccountNotProvided`, and with no other error: custody, the
      fill arithmetic and the buyer's credit all go through first. */
  lemma MissingSellerStatsGivesItsError(
    s: Snapshot, user: Pubkey, quantity: u64, price: u64, now: i64, supplied: set<Pubkey>, i: nat)
    requires Inv(s)
    requires user in s.stats && Open(s.market, now) && quantity > 0 && price > 0
    requires quantity * price <= U64_MAX && quantity * price <= Balance(s.ledger.collateral, Wallet(user))
    requires s.book.nextOrderId < U64_MAX
    requires s.stats[user].claimableYes + quantity <= U64_MAX
    requires IsFirstCrossingFrom(s.book.yesSellOrders, price, 0, i)
    requires s.book.yesSellOrders[i].userKey !in supplied
    ensures PlaceOrder(s, user, Buy, Yes, quantity, price, now, supplied) == Err(Program(SellerStatsAccountNotProvided))
  {
    var resting := s.book.yesSellOrders[i];
    var order := Order(s.book.nextOrderId, s.market.marketId, user, Buy, Yes, price, quantity, 0, now);
    CoveredTransferSucceeds(s.ledger.collateral, Wallet(user), Vault, quantity * price);
    UnsuppliedSellerFailsFill(resting, order, s.stats[user], s.stats, supplied);
    OneMatchPerCall(s.book.yesSellOrders, 0, order, s.stats[user], s.stats, supplied);
  }

  /** With the invariant in place, a covered YES buy whose first crossing
      sell belongs to a user who supplied an initialised stats record is
      accepted, provided the buyer's YES credit and the seller's collateral
      credit both fit in `u64`. */
  lemma CrossingBuyWithSuppliedSellerIsAccepted(
    s: Snapshot, user: Pubkey, quantity: u64, price: u64, now: i64, supplied: set<Pubkey>, i: nat)
    requires Inv(s)
    requires user in s.stats && Open(s.market, now) && quantity > 0 && price > 0
    requires quantity * price <= U64_MAX && quantity * price <= Balance(s.ledger.collateral, Wallet(user))
    requires s.book.nextOrderId < U64_MAX
    requires s.stats[user].claimableYes + quantity <= U64_MAX
    requires IsFirstCrossingFrom(s.book.yesSellOrders, price, 0, i)
    requires s.book.yesSellOrders[i].userKey in supplied && s.book.yesSellOrders[i].userKey in s.stats
    requires s.stats[s.book.yesSellOrders[i].userKey].claimableCollateral + quantity * price <= U64_MAX
    ensures PlaceOrder(s, user, Buy, Yes, quantity, price, now, supplied).Ok?
  {
    var resting := s.book.yesSellOrders[i];
    var order := Order(s.book.nextOrderId, s.market.marketId, user, Buy, Yes, price, quantity, 0, now);
    CoveredTransferSucceeds(s.ledger.collateral, Wallet(user), Vault, quantity * price);
    var q := Min(quantity, Remaining(resting));
    MulMonotone(q, quantity, resting.price);
    MulMonotone(resting.price, price, quantity);
    assert ExecuteFill(resting, order, s.stats[user], s.stats, supplied).Ok?;
    OneMatchPerCall(s.book.yesSellOrders, 0, order, s.stats[user], s.stats, supplied);
  }

  /** A fill whose arithmetic cannot overflow reaches the seller lookup, so
      an unsupplied seller gives exactly `SellerStatsAccountNotProvided`. */
  lemma UnsuppliedSellerFailsFill(
    resting: Order, incoming: Order, buyer: UserStats, store: map<Pubkey, UserStats>, supplied: set<Pubkey>)
    requires resting.filledQuantity <= resting.quantity && resting.price <= incoming.price
    requires incoming.filledQuantity == 0 && incoming.quantity * incoming.price <= U64_MAX
    requires buyer.claimableYes + incoming.quantity <= U64_MAX
    requires resting.userKey !in supplied
    ensures ExecuteFill(resting, incoming, buyer, store, supplied) == Err(Program(SellerStatsAccountNotProvided))
  {
    var q := Min(incoming.quantity, Remaining(resting));
    MulMonotone(q, incoming.quantity, resting.price);
    MulMonotone(resting.price, incoming.price, incoming.quantity);
  }

  /** With the invariant in place, an order past its guards whose funds are
      covered is accepted: the custody transfer cannot overflow the escrow or
      the vault. A YES buy that crosses a resting sell also depends on the
      seller's record, so here it crosses none. */
  lemma PlaceOrderFailsOnlyOnGuardsOrFunds(
    s: Snapshot, user: Pubkey, side: OrderSide, t: TokenType,
    quantity: u64, price: u64, now: i64, supplied: set<Pubkey>)
    requires Inv(s)
    requires user in s.stats && Open(s.market, now) && quantity > 0 && price > 0
    requires quantity * price <= U64_MAX && s.book.nextOrderId < U64_MAX
    requires side == Sell ==> quantity <= Balance(OutcomeMint(s.ledger, t), Wallet(user))
    requires side == Buy ==> quantity * price <= Balance(s.ledger.collateral, Wallet(user))
    requires t == Yes && side == Buy ==>
      forall j :: 0 <= j < |s.book.yesSellOrders| ==> s.book.yesSellOrders[j].price > price
    ensures PlaceOrder(s, user, side, t, quantity, price, now, supplied).Ok?
  {
    if side == Sell {
      CoveredTransferSucceeds(OutcomeMint(s.ledger, t), Wallet(user), EscrowOf(t), quantity);
    } else {
      CoveredTransferSucceeds(s.ledger.collateral, Wallet(user), Vault, quantity * price);
    }
    if t == Yes && side == Buy {
      var order := Order(s.book.nextOrderId, s.market.marketId, user, side, t, price, quantity, 0, now);
      OneMatchPerCall(s.book.yesSellOrders, 0, order, s.stats[user], s.stats, supplied);
    }
  }
}
