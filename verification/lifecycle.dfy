/** The market's life: creation, issuing and redeeming YES/NO pairs against
    collateral, the one-shot settlement, and the winners' claim. Each
    instruction is a transition from one snapshot to the next, or an error
    that leaves the snapshot as it was. */
module Lifecycle {
  import opened Wrappers
  import opened Arith
  import opened Errors
  import opened State
  import opened Ledger

  /** Everything one market's instructions read and write: the market record,
      its order book, the stats records by user, and the token ledger. */
  datatype Snapshot = Snapshot(
    market: Market,
    book: OrderBook,
    stats: map<Pubkey, UserStats>,
    ledger: Ledger)

  /** Trading is allowed: not settled and the deadline not reached. */
  predicate Open(m: Market, now: i64)
  {
    !m.isSettled && now < m.settlementDeadline
  }

  /** The token a settled market redeems: YES for `OutcomeA`, NO for anything else. */
  function RedeemedToken(w: WinningOutcome): TokenType
  {
    if w == OutcomeA then Yes else No
  }

  function OtherToken(t: TokenType): TokenType
  {
    if t == Yes then No else Yes
  }

  /** Creates the market, its empty book and its fresh YES/NO mints. The
      collateral mint already exists; the vault is a new account of it. */
  function InitializeMarket(authority: Pubkey, marketId: u32, deadline: i64, now: i64, collateral: Mint)
    : (r: Result<Snapshot, Error>)
    requires Vault !in collateral.balances
    ensures r.Ok? <==> deadline > now
    ensures r.Err? ==> r.error == Program(InvalidSettlementDeadline)
    ensures r.Ok? ==>
      var m := r.value.market;
      && !m.isSettled && m.winningOutcome == None && m.totalCollateralLocked == 0
      && m.authority == authority && m.marketId == marketId && m.settlementDeadline == deadline
    ensures r.Ok? ==>
      var b := r.value.book;
      && b.marketId == marketId && b.nextOrderId == 0
      && b.yesBuyOrders == b.yesSellOrders == b.noBuyOrders == b.noSellOrders == []
    ensures r.Ok? ==>
      var l := r.value.ledger;
      && l.collateral == collateral && Balance(l.collateral, Vault) == 0
      && l.yes.supply == 0 && l.no.supply == 0 && l.yes.mintAuthority && l.no.mintAuthority
    ensures r.Ok? ==> r.value.stats == map[]
  {
    if deadline <= now then Err(Program(InvalidSettlementDeadline))
    else
      var newMint := Mint(map[], 0, true);
      Ok(Snapshot(
        Market(authority, marketId, deadline, false, None, 0),
        OrderBook(marketId, 0, [], [], [], []),
        map[],
        Ledger(collateral, newMint, newMint)))
  }

  /** The caller's stats record after the split's `init_if_needed` account:
      a record still carrying the default user key gets its user, market id
      and six counters set; any other record is kept as it is. */
  function InitStatsIfNeeded(stats: map<Pubkey, UserStats>, user: Pubkey, marketId: u32)
    : (r: map<Pubkey, UserStats>)
    ensures r.Keys == stats.Keys + {user}
    ensures forall k :: k in stats && k != user ==> r[k] == stats[k]
    ensures user in stats && stats[user].user != DEFAULT_KEY ==> r[user] == stats[user]
    ensures r[user].user == (if user in stats && stats[user].user != DEFAULT_KEY then stats[user].user else user)
    ensures !(user in stats && stats[user].user != DEFAULT_KEY) ==>
      r[user] == (if user in stats then stats[user] else ZERO_STATS).(
        user := user, marketId := marketId,
        claimableYes := 0, lockedYes := 0,
        claimableNo := 0, lockedNo := 0,
        claimableCollateral := 0, lockedCollateral := 0)
  {
    var current := if user in stats then stats[user] else ZERO_STATS;
    if current.user == DEFAULT_KEY then
      stats[user := current.(
        user := user, marketId := marketId,
        lockedYes := 0, claimableYes := 0,
        lockedNo := 0, claimableNo := 0,
        lockedCollateral := 0, claimableCollateral := 0)]
    else stats
  }

  /** Locks `amount` collateral in the vault and mints `amount` YES and
      `amount` NO to the caller. */
  function SplitTokens(s: Snapshot, user: Pubkey, amount: u64, now: i64): (r: Result<Snapshot, Error>)
    ensures amount == 0 ==> r == Err(Program(InvalidAmount))
    ensures amount > 0 && s.market.isSettled ==> r == Err(Program(MarketAlreadySettled))
    ensures amount > 0 && !s.market.isSettled && now >= s.market.settlementDeadline ==>
      r == Err(Program(MarketExpired))
    ensures r.Err? && r.error == Program(MathOverflow) ==> s.market.totalCollateralLocked + amount > U64_MAX
    ensures amount > 0 && Open(s.market, now)
      && Transfer(s.ledger.collateral, Wallet(user), Vault, amount).Ok?
      && MintTo(s.ledger.yes, Wallet(user), amount).Ok? && MintTo(s.ledger.no, Wallet(user), amount).Ok?
      && s.market.totalCollateralLocked + amount > U64_MAX
      ==> r == Err(Program(MathOverflow))
    ensures r.Err? && r.error == Token(InsufficientFunds) ==> Balance(s.ledger.collateral, Wallet(user)) < amount
    ensures r.Ok? ==> amount > 0 && Open(s.market, now)
    ensures r.Ok? ==>
      var l, l', w := s.ledger, r.value.ledger, Wallet(user);
      && Balance(l'.yes, w) == Balance(l.yes, w) + amount && l'.yes.supply == l.yes.supply + amount
      && Balance(l'.no, w) == Balance(l.no, w) + amount && l'.no.supply == l.no.supply + amount
      && Balance(l'.collateral, w) == Balance(l.collateral, w) - amount
      && Balance(l'.collateral, Vault) == Balance(l.collateral, Vault) + amount
      && l'.collateral.supply == l.collateral.supply
      && (forall h :: h != w ==> Balance(l'.yes, h) == Balance(l.yes, h) && Balance(l'.no, h) == Balance(l.no, h))
      && (forall h :: h != w && h != Vault ==> Balance(l'.collateral, h) == Balance(l.collateral, h))
      && l'.yes.mintAuthority && l'.no.mintAuthority
      && l'.collateral.mintAuthority == l.collateral.mintAuthority
    ensures r.Ok? ==>
      && r.value.market.totalCollateralLocked == s.market.totalCollateralLocked + amount
      && r.value.market == s.market.(totalCollateralLocked := r.value.market.totalCollateralLocked)
      && r.value.book == s.book
      && r.value.stats == InitStatsIfNeeded(s.stats, user, s.market.marketId)
  {
    if amount == 0 then Err(Program(InvalidAmount))
    else if s.market.isSettled then Err(Program(MarketAlreadySettled))
    else if now >= s.market.settlementDeadline then Err(Program(MarketExpired))
    else
      var collateral :- Transfer(s.ledger.collateral, Wallet(user), Vault, amount);
      var yes :- MintTo(s.ledger.yes, Wallet(user), amount);
      var no :- MintTo(s.ledger.no, Wallet(user), amount);
      var total :- CheckedAdd(s.market.totalCollateralLocked, amount).OkOr(Program(MathOverflow));
      Ok(s.(
        market := s.market.(totalCollateralLocked := total),
        stats := InitStatsIfNeeded(s.stats, user, s.market.marketId),
        ledger := Ledger(collateral, yes, no)))
  }

  /** Pairs a merge redeems: the smaller of the caller's YES and NO balances. */
  function MergeAmount(l: Ledger, user: Pubkey): (r: u64)
    ensures r <= Balance(l.yes, Wallet(user)) && r <= Balance(l.no, Wallet(user))
    ensures r == Balance(l.yes, Wallet(user)) || r == Balance(l.no, Wallet(user))
  {
    Min(Balance(l.yes, Wallet(user)), Balance(l.no, Wallet(user)))
  }

  /** Burns as many YES/NO pairs as the caller holds and releases that much collateral. */
  function MergeTokens(s: Snapshot, user: Pubkey, now: i64): (r: Result<Snapshot, Error>)
    ensures now >= s.market.settlementDeadline ==> r == Err(Program(MarketExpired))
    ensures now < s.market.settlementDeadline && s.market.isSettled ==> r == Err(Program(MarketAlreadySettled))
    ensures Open(s.market, now) && MergeAmount(s.ledger, user) == 0 ==> r == Err(Program(InvalidAmount))
    ensures r.Err? && r.error == Program(MathOverflow) ==> MergeAmount(s.ledger, user) > s.market.totalCollateralLocked
    ensures Open(s.market, now) && MergeAmount(s.ledger, user) > 0
      && Burn(s.ledger.yes, Wallet(user), MergeAmount(s.ledger, user)).Ok?
      && Burn(s.ledger.no, Wallet(user), MergeAmount(s.ledger, user)).Ok?
      && Transfer(s.ledger.collateral, Vault, Wallet(user), MergeAmount(s.ledger, user)).Ok?
      && MergeAmount(s.ledger, user) > s.market.totalCollateralLocked
      ==> r == Err(Program(MathOverflow))
    ensures r.Ok? ==> Open(s.market, now) && MergeAmount(s.ledger, user) > 0
    ensures r.Ok? ==>
      var l, l', w, a := s.ledger, r.value.ledger, Wallet(user), MergeAmount(s.ledger, user);
      && Balance(l'.yes, w) == Balance(l.yes, w) - a && l'.yes.supply == l.yes.supply - a
      && Balance(l'.no, w) == Balance(l.no, w) - a && l'.no.supply == l.no.supply - a
      && (Balance(l'.yes, w) == 0 || Balance(l'.no, w) == 0)
      && Balance(l'.collateral, w) == Balance(l.collateral, w) + a
      && Balance(l'.collateral, Vault) == Balance(l.collateral, Vault) - a
      && l'.collateral.supply == l.collateral.supply
      && (forall h :: h != w ==> Balance(l'.yes, h) == Balance(l.yes, h) && Balance(l'.no, h) == Balance(l.no, h))
      && (forall h :: h != w && h != Vault ==> Balance(l'.collateral, h) == Balance(l.collateral, h))
      && l'.yes.mintAuthority == l.yes.mintAuthority && l'.no.mintAuthority == l.no.mintAuthority
      && l'.collateral.mintAuthority == l.collateral.mintAuthority
      && r.value.market.totalCollateralLocked == s.market.totalCollateralLocked - a
      && r.value.market == s.market.(totalCollateralLocked := r.value.market.totalCollateralLocked)
      && r.value.book == s.book && r.value.stats == s.stats
  {
    if now >= s.market.settlementDeadline then Err(Program(MarketExpired))
    else if s.market.isSettled then Err(Program(MarketAlreadySettled))
    else
      var amount := MergeAmount(s.ledger, user);
      if amount == 0 then Err(Program(InvalidAmount))
      else
        var yes :- Burn(s.ledger.yes, Wallet(user), amount);
        var no :- Burn(s.ledger.no, Wallet(user), amount);
        var collateral :- Transfer(s.ledger.collateral, Vault, Wallet(user), amount);
        var total :- CheckedSub(s.market.totalCollateralLocked, amount).OkOr(Program(MathOverflow));
        Ok(s.(
          market := s.market.(totalCollateralLocked := total),
          ledger := Ledger(collateral, yes, no)))
  }

  /** Records the winning outcome and takes away the market's power to mint
      more YES or NO. Whoever signs may call it: nothing compares the signer
      with the market's authority, so `settler` plays no part. */
  function SetWinningSide(s: Snapshot, settler: Pubkey, w: WinningOutcome, now: i64): (r: Result<Snapshot, Error>)
    ensures now >= s.market.settlementDeadline ==> r == Err(Program(MarketExpired))
    ensures now < s.market.settlementDeadline && s.market.isSettled ==> r == Err(Program(MarketAlreadySettled))
    ensures r.Ok? <==> Open(s.market, now) && s.ledger.yes.mintAuthority && s.ledger.no.mintAuthority
    ensures Open(s.market, now) && !(s.ledger.yes.mintAuthority && s.ledger.no.mintAuthority) ==>
      r == Err(Token(FixedSupply))
    ensures r.Ok? ==>
      && r.value.market == s.market.(isSettled := true, winningOutcome := Some(w))
      && r.value.ledger == s.ledger.(yes := s.ledger.yes.(mintAuthority := false), no := s.ledger.no.(mintAuthority := false))
      && r.value.book == s.book && r.value.stats == s.stats
  {
    if now >= s.market.settlementDeadline then Err(Program(MarketExpired))
    else if s.market.isSettled then Err(Program(MarketAlreadySettled))
    else
      var yes :- RevokeMintAuthority(s.ledger.yes);
      var no :- RevokeMintAuthority(s.ledger.no);
      Ok(s.(
        market := s.market.(isSettled := true, winningOutcome := Some(w)),
        ledger := s.ledger.(yes := yes, no := no)))
  }

  /** Burns the caller's whole balance of the redeemed token and pays the
      same amount of collateral from the vault. There is no claimed-once
      flag: a second claim finds a zero balance and moves nothing. */
  function ClaimRewards(s: Snapshot, user: Pubkey): (r: Result<Snapshot, Error>)
    ensures !s.market.isSettled ==> r == Err(Program(MarketNotSettled))
    ensures s.market.isSettled && s.market.winningOutcome.None? ==> r == Err(Program(WinningOutcomeNotSet))
    ensures r.Err? && r.error == Program(MathOverflow) ==>
      s.market.winningOutcome.Some? &&
      Balance(OutcomeMint(s.ledger, RedeemedToken(s.market.winningOutcome.value)), Wallet(user)) > s.market.totalCollateralLocked
    ensures s.market.isSettled && s.market.winningOutcome.Some? ==>
      var t := RedeemedToken(s.market.winningOutcome.value);
      var a := Balance(OutcomeMint(s.ledger, t), Wallet(user));
      Burn(OutcomeMint(s.ledger, t), Wallet(user), a).Ok?
      && Transfer(s.ledger.collateral, Vault, Wallet(user), a).Ok?
      && a > s.market.totalCollateralLocked
      ==> r == Err(Program(MathOverflow))
    ensures r.Ok? ==> s.market.isSettled && s.market.winningOutcome.Some?
    ensures r.Ok? ==>
      var t := RedeemedToken(s.market.winningOutcome.value);
      var l, l', w := s.ledger, r.value.ledger, Wallet(user);
      var a := Balance(OutcomeMint(l, t), w);
      && Balance(OutcomeMint(l', t), w) == 0
      && OutcomeMint(l', t).supply == OutcomeMint(l, t).supply - a
      && (forall h :: h != w ==> Balance(OutcomeMint(l', t), h) == Balance(OutcomeMint(l, t), h))
      && OutcomeMint(l', t).mintAuthority == OutcomeMint(l, t).mintAuthority
      && OutcomeMint(l', OtherToken(t)) == OutcomeMint(l, OtherToken(t))
      && Balance(l'.collateral, w) == Balance(l.collateral, w) + a
      && Balance(l'.collateral, Vault) == Balance(l.collateral, Vault) - a
      && l'.collateral.supply == l.collateral.supply
      && (forall h :: h != w && h != Vault ==> Balance(l'.collateral, h) == Balance(l.collateral, h))
      && l'.collateral.mintAuthority == l.collateral.mintAuthority
      && r.value.market.totalCollateralLocked == s.market.totalCollateralLocked - a
      && r.value.market == s.market.(totalCollateralLocked := r.value.market.totalCollateralLocked)
      && r.value.book == s.book && r.value.stats == s.stats
  {
    if !s.market.isSettled then Err(Program(MarketNotSettled))
    else
      var winner :- s.market.winningOutcome.OkOr(Program(WinningOutcomeNotSet));
      var t := RedeemedToken(winner);
      var amount := Balance(OutcomeMint(s.ledger, t), Wallet(user));
      var burned :- Burn(OutcomeMint(s.ledger, t), Wallet(user), amount);
      var collateral :- Transfer(s.ledger.collateral, Vault, Wallet(user), amount);
      var total :- CheckedSub(s.market.totalCollateralLocked, amount).OkOr(Program(MathOverflow));
      Ok(s.(
        market := s.market.(totalCollateralLocked := total),
        ledger := WithOutcomeMint(s.ledger, t, burned).(collateral := collateral)))
  }
}
