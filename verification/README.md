# Prediction market: a Dafny model of the on-chain program

This project models the Solana prediction-market program's core: one
binary market with collateral locked against complementary YES/NO outcome
tokens, and an order book for trading those tokens. It follows the code as
written, not the design its comments describe.

Each instruction is a pure transition from a `Snapshot` to a
`Result<Snapshot, Error>`. A snapshot holds the market record, the order
book, the stats records by user and an abstract token ledger. The
instructions are:

- `initialize_market` creates the market.
- `split_tokens` locks collateral and mints one YES and one NO per unit.
- `merge_tokens` burns `min(YES, NO)` pairs and releases that much collateral.
- `set_winning_side` settles the market once.
- `claim_rewards` redeems the winning token 1:1 for collateral.
- `place_order` takes custody of the order's funds and assigns an order id.
  For a YES buy, it also runs the matching scan over the YES sell vector.

Guards run in the program's order, so each case returns the same error as
the program.

The ledger stands in for the token program:

- Each of the three mints (collateral, YES, NO) has balances by holder, a supply and a mint-authority flag.
- The holders are user wallets, the collateral vault and the two escrows.
- A transfer, mint or burn either happens completely or fails with the token program's error.

As written, the program behaves as follows:

- The incoming order is never stored in the book.
- Filled orders are never removed, and nothing is sorted.
- The matching loop runs with `max_iteration = 0`. The first crossing entry therefore consumes the one match, even when its fill is zero.
- The `locked_*` counters are only ever set to zero, when `split_tokens` first sets up a stats record. Nothing raises them.
- A `Neither` outcome redeems NO.
- Anyone can settle the market.
- A second claim succeeds and moves nothing.

The model proves these facts about the program:

- The accounting invariant: locked collateral equals both outcome supplies before settlement, and the redeemed token's supply after it.
- The invariant holds for every reachable state.
- Locked collateral is exactly the net of splits, merges and claims.
- The outcome, once set, is final.
- A book that starts empty stays empty.
- A fill never exceeds the order's quantity.
- The buyer's credit equals the sellers' fills.
- A missing counterparty record fails the whole call with `SellerStatsAccountNotProvided`.
- The account-size arithmetic of `state.rs` is correct.

Files, one module each:

- `wrappers.dfy`: `Option` and `Result`.
- `errors.dfy`: the program's error codes, plus token-program and runtime failures.
- `arith.dfy`: `u64` and the checked operations.
- `state.dfy`: the records and the account-size arithmetic.
- `ledger.dfy`: the abstract token ledger.
- `lifecycle.dfy`: the market instructions.
- `orders.dfy`: order placement and matching.
- `invariants.dfy`: the accounting invariant.
- `trace.dfy`: runs of instructions.
- `scenarios.dfy`: concrete cases.

## Model

All paths are under `contract/programs/prediction_market/src/` unless they start with `contract/tests/`.

| member | source | states |
|---|---|---|
| State.Space | contract/programs/prediction_market/src/state.rs:109-111 | space for `n` orders per side; its own contract is thin, and `State.SpaceIsAffine` and `State.SpaceStrictlyIncreasing` state its properties |
| State.TotalOrders | contract/programs/prediction_market/src/state.rs:114-119 | the sum of the four vector lengths; `State.TotalOrdersBoundedByLongestSide` states its properties |
| State.CurrentSpaceNeeded | contract/programs/prediction_market/src/state.rs:122-128 | `space` of the longest side; `State.CurrentSpaceCoversAllOrders` and `State.EncodedSizeFits` state what it covers |
| State.SpaceIsAffine | contract/programs/prediction_market/src/state.rs:103-111 | `space(n)` is `37 + 320·n`, and `space(0)` is `BASE_SIZE`, which is 37 |
| State.SpaceStrictlyIncreasing | contract/programs/prediction_market/src/state.rs:109-111 | more orders per side always need strictly more space |
| State.TotalOrdersBoundedByLongestSide | contract/programs/prediction_market/src/state.rs:114-126 | the total order count lies between the longest side and four times it, and it is zero exactly when all four vectors are empty |
| State.CurrentSpaceCoversAllOrders | contract/programs/prediction_market/src/state.rs:122-128 | space sized by the longest side covers `BASE_SIZE` plus `ORDER_SIZE` bytes for every order in the book |
| State.EncodedSizeFits | contract/programs/prediction_market/src/state.rs:76-86 | an order serializes to 78 bytes, at most `ORDER_SIZE` (80), so the current space also covers the book's encoding |
| Ledger.Transfer | contract/programs/prediction_market/src/lib.rs:79-89 | a token transfer succeeds iff the source covers the amount and the destination does not overflow; it moves exactly the amount and touches nothing else; a self-transfer changes nothing |
| Ledger.MintTo | contract/programs/prediction_market/src/lib.rs:94-119 | minting needs the mint authority and no overflow; it raises the destination balance and the supply by the amount |
| Ledger.Burn | contract/programs/prediction_market/src/lib.rs:174-195 | burning needs the balance; it lowers that balance and the supply by the amount |
| Ledger.RevokeMintAuthority | contract/programs/prediction_market/src/lib.rs:251-275 | revoking clears the mint-authority flag and fails if it is already clear |
| Ledger.TransferKeepsConsistent | contract/programs/prediction_market/src/lib.rs:79-89 | a transfer keeps a mint's balances summing to its supply |
| Ledger.MintToKeepsConsistent | contract/programs/prediction_market/src/lib.rs:94-119 | a mint keeps the balances summing to the supply |
| Ledger.BurnKeepsConsistent | contract/programs/prediction_market/src/lib.rs:174-195 | a burn keeps the balances summing to the supply |
| Ledger.CoveredTransferSucceeds | contract/programs/prediction_market/src/lib.rs:201-212 | in a consistent mint, a transfer the source covers cannot overflow the destination |
| Ledger.CoveredBurnSucceeds | contract/programs/prediction_market/src/lib.rs:307-317 | in a consistent mint, a burn the holder covers always succeeds |
| Ledger.MintWithinSupplySucceeds | contract/programs/prediction_market/src/lib.rs:94-119 | minting succeeds when the authority is held and the new supply fits in `u64` |
| Lifecycle.InitializeMarket | contract/programs/prediction_market/src/lib.rs:25-60 | creation succeeds iff the deadline is in the future; the market starts unsettled with no outcome and nothing locked, with the book's next id 0 and all four vectors empty, and with fresh, empty, mintable YES/NO mints |
| Lifecycle.InitStatsIfNeeded | contract/programs/prediction_market/src/lib.rs:126-144 | a stats record is set up only when its user field is the default key, and then gets the caller's key, the market id and six zero counters, keeping its other fields; an existing record is kept unchanged, and other users' records are untouched |
| Lifecycle.SplitTokens | contract/programs/prediction_market/src/lib.rs:62-153 | the guards, in order: zero amount, then settled, then expired; on success YES and NO each rise by the amount, the same collateral moves from the user to the vault, and locked collateral rises by exactly the amount; once the transfer and both mints go through, an overflow of the locked counter gives `MathOverflow`, and that is the only way to get it |
| Lifecycle.MergeAmount | contract/programs/prediction_market/src/lib.rs:167-170 | the pairs a merge redeems: at most each of the caller's YES and NO balances, and equal to one of them; `Lifecycle.MergeTokens` states what is done with it |
| Lifecycle.MergeTokens | contract/programs/prediction_market/src/lib.rs:155-224 | the guards, in order: expired, then settled, then a zero `min(YES, NO)`; on success that many of each token are burnt, as much collateral comes back, and locked collateral falls by it, leaving the caller with no YES or no NO; once the burns and the payout go through, an underflow of the locked counter gives `MathOverflow`, and that is the only way to get it |
| Lifecycle.SetWinningSide | contract/programs/prediction_market/src/lib.rs:226-280 | the guards, in order: expired, then settled; on success the market is settled with the given outcome and both outcome mints lose their mint authority; an open market whose outcome mints cannot both be revoked gives `FixedSupply`; the signer plays no part |
| Lifecycle.ClaimRewards | contract/programs/prediction_market/src/lib.rs:282-345 | the guards, in order: unsettled, then no outcome; `OutcomeA` redeems YES and every other outcome redeems NO; the whole balance is burnt, as much collateral is paid from the vault, and locked collateral falls by it; once the burn and the payout go through, an underflow of the locked counter gives `MathOverflow`, and that is the only way to get it |
| Orders.MatchYesBuy | contract/programs/prediction_market/src/lib.rs:476-611 | the matching loop; its own contract keeps only the vector length and the iteration bound, and `Orders.OneMatchPerCall` and the four `Orders.Scan*` lemma rows state what it does |
| Orders.ExecuteFill | contract/programs/prediction_market/src/lib.rs:490-562 | one trade fills `min(buyer remaining, seller remaining)` on both orders, credits the buyer that many claimable YES, and credits the seller that many times the resting price in claimable collateral; a seller record that was not supplied fails the trade; once the fill's value and the buyer's credit fit, a supplied seller account holding no record gives `AccountDiscriminatorNotFound`, and with a record the trade succeeds exactly when the seller's credit fits in `u64` |
| Orders.ScanTouchesOnlyCrossingFills | contract/programs/prediction_market/src/lib.rs:483-610 | the scan changes only filled quantities, only ever raises them, and leaves every entry the buy price does not cross unchanged |
| Orders.ScanKeepsFillsBounded | contract/programs/prediction_market/src/lib.rs:492-509 | no order, resting or incoming, is filled beyond its quantity |
| Orders.ScanConservesFills | contract/programs/prediction_market/src/lib.rs:502-526 | the buyer's claimable YES, the incoming fill and the total fill of the sell vector all grow by the same amount |
| Orders.ScanOnlyCreditsSellers | contract/programs/prediction_market/src/lib.rs:539-557 | stored stats records only gain claimable collateral; no record appears, vanishes or changes in any other field |
| Orders.OneMatchPerCall | contract/programs/prediction_market/src/lib.rs:476-610 | with `max_iteration = 0` the scan changes nothing if no entry crosses; otherwise it is one trade with the first crossing entry, whatever its size, and nothing after it |
| Orders.TakeCustody | contract/programs/prediction_market/src/lib.rs:399-439 | a sell needs a token balance of at least `quantity` and moves that many tokens to the escrow; a buy needs at least `quantity*price` collateral and moves it to the vault; otherwise the error is `NotEnoughBalance`; a covered order's custody goes through unless the destination would overflow |
| Orders.PlaceOrder | contract/programs/prediction_market/src/lib.rs:355-452 | the guards, in order: expired, settled, zero quantity, zero price, then `quantity*price` overflow for either side, then insufficient funds; on success the next order id rises by one, the market is unchanged, the incoming order is not added to the book, and sell and NO orders change neither the book vectors nor the stats |
| Orders.PlaceOrderOnlyRaisesClaimables | contract/programs/prediction_market/src/lib.rs:441-618 | placing an order never changes a `locked_*` counter or any other stats field except raising claimable YES or claimable collateral |
| Orders.PlaceOrderWithoutCrossing | contract/programs/prediction_market/src/lib.rs:483-490 | a YES buy priced below every resting sell trades with nobody |
| Orders.PlaceOrderTradesWithFirstCrossing | contract/programs/prediction_market/src/lib.rs:483-562 | a YES buy trades only with the first sell its price crosses: that sell's fill grows by `min(quantity, its remaining)`, the buyer gains as many claimable YES, and a seller other than the buyer gains that many times the resting price; no other record or entry changes |
| Orders.MissingSellerStatsFailsClosed | contract/programs/prediction_market/src/lib.rs:539-562 | if the first crossing sell's owner did not supply a stats record, the whole call fails, whatever else holds |
| Invariants.CrossingBuyWithSuppliedSellerIsAccepted | contract/programs/prediction_market/src/lib.rs:375-562 | when the invariant holds and a YES buy is covered and passes its guards, and the owner of the first crossing sell supplied an initialised stats record, the buy is accepted as long as the buyer's YES credit and the seller's collateral credit fit in `u64` |
| Invariants.MissingSellerStatsGivesItsError | contract/programs/prediction_market/src/lib.rs:539-562 | when the invariant holds and a YES buy is covered and passes its guards, an unsupplied owner of the first crossing sell gives exactly `SellerStatsAccountNotProvided` |
| Invariants.UnsuppliedSellerFailsFill | contract/programs/prediction_market/src/lib.rs:492-562 | a fill whose arithmetic cannot overflow reaches the seller lookup, so an unsupplied seller gives exactly `SellerStatsAccountNotProvided` |
| Invariants.InitEstablishesInv | contract/programs/prediction_market/src/lib.rs:44-56 | a new market satisfies the accounting invariant |
| Invariants.SplitPreservesInv | contract/programs/prediction_market/src/lib.rs:79-124 | a split keeps locked collateral equal to both outcome supplies and covered by the vault |
| Invariants.SplitFailsOnlyOnGuardsOrFunds | contract/programs/prediction_market/src/lib.rs:62-124 | when the invariant holds, a split past its guards fails only if the caller lacks the collateral; the overflow checks never fire |
| Invariants.MergePreservesInv | contract/programs/prediction_market/src/lib.rs:174-217 | a merge keeps the invariant |
| Invariants.MergeFailsOnlyOnGuards | contract/programs/prediction_market/src/lib.rs:167-217 | when the invariant holds, a merge past its guards always succeeds |
| Invariants.SetWinningSidePreservesInv | contract/programs/prediction_market/src/lib.rs:242-275 | after settlement, locked collateral equals the redeemed token's supply and neither outcome mint can mint |
| Invariants.SettlementFailsOnlyOnGuards | contract/programs/prediction_market/src/lib.rs:233-275 | when the invariant holds, an open market can always be settled, by anyone |
| Invariants.ClaimPreservesInv | contract/programs/prediction_market/src/lib.rs:304-340 | a claim keeps the invariant |
| Invariants.ClaimFailsOnlyWhenUnsettled | contract/programs/prediction_market/src/lib.rs:285-340 | when the invariant holds, a claim succeeds exactly when the market is settled |
| Invariants.PlaceOrderFailsOnlyOnGuardsOrFunds | contract/programs/prediction_market/src/lib.rs:365-452 | when the invariant holds, an order that passes its guards, whose funds are covered and whose id can advance is accepted; a YES buy is included when it crosses no resting sell |
| Invariants.PlaceOrderPreservesInv | contract/programs/prediction_market/src/lib.rs:403-510 | placing an order only moves tokens, so supplies and locked collateral keep the invariant and fills stay within quantities |
| Trace.StepPreservesInv | contract/programs/prediction_market/src/lib.rs:62-625 | every instruction, successful or not, keeps the invariant |
| Trace.RunPreservesInv | contract/programs/prediction_market/src/lib.rs:62-625 | every state reachable by a run of instructions satisfies the invariant |
| Trace.LockedCollateralIsNetOfSplitsMergesClaims | contract/programs/prediction_market/src/lib.rs:121-340 | over any run, locked collateral changes by exactly splits minus merges minus claims; the vault changes by that plus buy-order custody |
| Trace.OutcomeIsFinal | contract/programs/prediction_market/src/lib.rs:237-244 | once settled, a market stays settled with the same outcome through any run |
| Trace.BookStaysEmpty | contract/programs/prediction_market/src/lib.rs:454-472 | no instruction adds an order, so a book that starts empty stays empty |
| Trace.MarketFromInitialization | contract/programs/prediction_market/src/lib.rs:25-60 | from a new market, every reachable state satisfies the invariant, has an empty book, and locks exactly the net of its splits, merges and claims |
| Scenarios.InitializeOpensMarket | contract/programs/prediction_market/src/lib.rs:31-56 | a concrete creation, and a refusal when the deadline equals the current time |
| Scenarios.SplitLocksAndMints | contract/tests/prediction_market.ts:204-241 | splitting moves the amount into the vault, mints as much of each token and locks it; splitting zero gives `InvalidAmount` |
| Scenarios.MergeUnlocks | contract/tests/prediction_market.ts:296-314 | merging returns every pair and leaves nothing locked; merging again gives `InvalidAmount` |
| Scenarios.SettleOnce | contract/programs/prediction_market/src/lib.rs:226-244 | a non-authority can settle; settling again gives `MarketAlreadySettled`, and so do splitting and merging afterwards |
| Scenarios.ClaimRedeemsWinningSide | contract/tests/prediction_market.ts:474-480 | a claim pays the YES balance in collateral and zeroes it; a second claim succeeds and changes nothing |
| Scenarios.SettleNeither | contract/programs/prediction_market/src/lib.rs:226-244 | any signer settles the concrete market for `Neither` |
| Scenarios.NeitherRedeemsNo | contract/programs/prediction_market/src/lib.rs:291-300 | under `Neither`, the claim burns NO and leaves YES untouched |
| Scenarios.MalformedOrdersRefused | contract/programs/prediction_market/src/lib.rs:375-408 | zero quantity, zero price and an uncovered sell are each refused with their own error |
| Scenarios.MissingStatsRecordRefused | contract/programs/prediction_market/src/instructions.rs:362-367 | a signer whose stats account does not exist cannot place a buy or a sell; the account fails to load with `AccountNotInitialized` |
| Scenarios.SellIsEscrowedButNotBooked | contract/programs/prediction_market/src/lib.rs:403-472 | a sell moves its tokens to escrow and takes an id, but the book stays empty |
| Scenarios.BuyAgainstRestingSucceeds | contract/programs/prediction_market/src/lib.rs:483-562 | a covered YES buy crossing a resting sell with a supplied seller succeeds |
| Scenarios.BuyAgainstRestingTrades | contract/programs/prediction_market/src/lib.rs:492-526 | a buy of up to 50 at 2 against the resting sell fills that quantity on it; the buyer is owed as many YES and the seller twice that in collateral, which the vault holds |
| Scenarios.PartialFill | contract/programs/prediction_market/src/lib.rs:492-526 | a buy of 30 against a sell of 50 fills 30 on the sell; the buyer is owed 30 YES and the seller 60 collateral |
| Scenarios.PartialFillNeedsSellerStats | contract/programs/prediction_market/src/lib.rs:559-562 | the same buy without the seller's record fails with `SellerStatsAccountNotProvided` |
| Scenarios.FullFillStaysInBook | contract/programs/prediction_market/src/lib.rs:570-573 | a sell filled completely stays in the vector |
| Scenarios.FilledEntryBlocksTheScan | contract/programs/prediction_market/src/lib.rs:483-610 | a filled entry ahead in the vector takes the one match with a zero fill, so the open sell behind it is never reached |
| Scenarios.NonCrossingAndNoOrdersDoNotTrade | contract/programs/prediction_market/src/lib.rs:481-618 | a buy priced below the resting sell and a NO buy both leave the book and the stats unchanged |
| Scenarios.SelfTradeLosesSellerCredit | contract/programs/prediction_market/src/lib.rs:523-552 | when the buyer crosses their own sell, their record keeps the YES credit and loses the collateral credit |

## Left out

- Token-program calls are abstract ledger updates, including the transfers, mints and burns. Account ownership, signatures, decimals and the associated-account plumbing are not modelled. In `split_tokens` and `merge_tokens` the result of each token call is not propagated with `?`. A failed call still aborts the transaction, so the model propagates every token error.
- The clock is the `now` parameter, and `msg!` logging is left out.
- These market fields are not modelled: `meta_data_url`, the bumps, and the stored mint, vault and escrow addresses. The ledger identifies its holders by role instead.
- PDA derivation, the `remaining_accounts` scan and Borsh (de)serialisation are replaced by a `supplied` set and a keyed map of stats records. An owner outside `supplied` gives `SellerStatsAccountNotProvided`. A supplied owner with no stored record has an account with no data. Anchor's deserialisation then fails with `AccountDiscriminatorNotFound`. A supplied account holding another type's data, which would fail with `AccountDiscriminatorMismatch`, is not modelled.
- Only the signer's stats account is required by the account list. A missing one is reported as a runtime error before the handler runs. Other account-constraint failures in `instructions.rs` are not modelled.
- Lifecycle.InitializeMarket: requires the vault to be a holder with no balance yet, because Anchor's `init` creates it. The real token program reports a duplicate account differently.
- A `u64` overflow of `next_order_id += 1` is modelled as a runtime panic. This assumes release builds with overflow checks on, as the project template sets.
- State.Space: `usize` overflow is not modelled, because `space` is only used for sizes far below it.
- Pubkeys are natural numbers, and the default key is 0.
- Self-trade is modelled as written, not excluded. The signer's record is written back last, so a self-trade loses the seller's collateral credit.
- These features have no code in the program and are left out: sorting the book, inserting an order's remainder, removing filled orders, `cancel_order`, a 50/50 payout for `Neither`, and a cap on orders per side (`MAX_ORDERBOOK_LENGTH`).
- Burns and transfers made directly through the token program, outside this program's instructions, are not modelled. The invariants hold over runs of this program's instructions.
- The draft program under `programs/` and its tests are not modelled.
- TypeScript test cases whose calls are never awaited or never sent assert nothing, so no properties are taken from them.
