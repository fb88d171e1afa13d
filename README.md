# merkelBot trading engine in Dafny

This project models the core of merkelBot, a simulator that replays a historical
limit-order dataset tick by tick. A simulated participant, "botuser", trades against
the dataset's orders. The model covers four layers:

- **Order records.** `OrderEntries` (OrderBookEntry.cpp) has the entry datatype with
  the constructor defaults, the side parse, and the timestamp and price comparators.
- **Parsing.** `CsvReader` (CSVReader.cpp) has the `tokenise` splitter, both
  `stringsToOBE` overloads, and the row grouping plus sorted key lists of `readCSV`.
  The file's lines are an input here.
- **The two-pool ledger.**
  - `WalletStore` (Wallet.cpp) is a currency-to-balance map. Its insert throws on a
    negative amount. Its removal is guarded, with a 0.9999 tolerance. It also holds
    the affordability check.
  - `AssetLedger` (Assets.cpp) holds the free ("standard"), reserved and total
    wallets. It seeds funds, sets standard order sizes, blocks and unblocks, settles
    sales, and has the unused cancellation helper.
- **Matching and the participant's rules.**
  - `MatchingEngine` (OrderBook.cpp) holds `getOrders` and the nested-loop
    `matchAsksToBids`. Its partial fills are recorded in sale entries. The
    participant's unresolved orders go into `activeUserOrders`.
  - `TradingBot` (MerkelBot.cpp) holds:
    - the live-order filters;
    - the max-bid, min-ask and reference-price survey;
    - the cancellation pass over carried orders;
    - the bid and ask placement guards;
    - the carryover step of `init`;
    - the first-tick gate of `processBotActions`.

Code that changes state step by step is imperative Dafny. Examples are the wallets'
maps, the three pools, `activeUserOrders`, the participant's order schedule and its
price maps. Each method is proved equal to a function on values. For example:

- `OrderBook.MatchSorted` against `MatchFrom`/`MatchAsk`;
- `MerkelBot.CancelBotOrders` against `CancelFrom`;
- `MerkelBot.PlaceBotAsks` against `PlacedFrom`.

The properties are lemmas about those functions: conservation, price bounds,
no crossed remainder, exact releases, admission only when affordable, and
frames. Prices and amounts are `real`. `std::map::operator[]` on a wallet
inserts an absent key at 0, and the model keeps that insertion explicitly
(`Touched`, `Credited`).

Where the design description and the code differ, the model follows the code:

- Orders that are carried over keep their old timestamp, so they are never matched again.
  `CarriedOrdersAreNotMatched` states this.
- Matching is by price only. Within one price, `std::sort` does not fix the order,
  and the model allows any sorted arrangement.
- After its loop, `init` calls `processBotActions` once more without advancing
  `currentTime` (MerkelBot.cpp:49-85). With three or more timestamps, the last
  timestamp is never acted on and the one before it is acted on twice, trading
  included. With two, the repeated tick is the first, so the second call only
  surveys prices again. With one, the loop never runs and the single call sees
  an empty `currentTime`: it is not the first timestamp, so the call trades on a
  tick with no orders. With none, `allTimestamps.size() - 1` wraps around and the
  loop reads past the end, which is undefined behaviour.
- Orders carry no identifier.

## Model

| member | source | states |
|---|---|---|
| OrderEntries.ConstructorDefaults | OrderBookEntry.cpp:3-21 | the five-argument construction copies each argument into its field; priceDifference defaults to 0, username to "dataset", status to "initial" |
| OrderEntries.StringToOrderBookType | OrderBookEntry.cpp:23-34 | "ask" gives ask and "bid" gives bid, both directions; every other string gives unknown; never a sale type |
| OrderEntries.LexLessIrreflexive | OrderBookEntry.cpp:36-39 | no timestamp string is less than itself under `std::string` `<` |
| OrderEntries.LexLessTransitive | OrderBookEntry.cpp:36-39 | string `<` is transitive |
| OrderEntries.LexLessTotal | OrderBookEntry.cpp:36-39 | any two different strings are ordered one way or the other |
| OrderEntries.LexLessAsymmetric | OrderBookEntry.cpp:36-39 | string `<` never holds both ways |
| OrderEntries.CompareByTimestampIsStrictOrder | OrderBookEntry.cpp:36-39 | the timestamp comparator is lexicographic `<` on timestamps: irreflexive, transitive, asymmetric, and total on different timestamps |
| OrderEntries.CompareByPriceAscIsStrictWeakOrder | OrderBookEntry.cpp:41-44 | the ascending comparator is irreflexive, asymmetric, transitive, with transitive incomparability, so it is valid for `std::sort` |
| OrderEntries.CompareByPriceDescIsSwappedAsc | OrderBookEntry.cpp:41-49 | descending(a, b) equals ascending(b, a) for all entries |
| CsvReader.FindFirstOf | CSVReader.cpp:69 | the index found holds the separator and is at or after the start, or it is npos |
| CsvReader.FindFirstNotOf | CSVReader.cpp:65 | the index found does not hold the separator and is at or after the start, or it is npos |
| CsvReader.FindFirstOfSkips | CSVReader.cpp:69 | nothing between the start and the index found is the separator; with npos, nothing after the start is |
| CsvReader.FindFirstNotOfSkips | CSVReader.cpp:65 | everything between the start and the index found is the separator; with npos, everything after the start is |
| CsvReader.FindFirstOfIs | CSVReader.cpp:69 | the first separator at or after the start is the index found |
| CsvReader.FindFirstOfNone | CSVReader.cpp:69 | without a separator after the start the search gives npos |
| CsvReader.FindFirstNotOfIs | CSVReader.cpp:65 | the first non-separator at or after the start is the index found |
| CsvReader.FindFirstNotOfNone | CSVReader.cpp:65 | a line of separators only gives npos |
| CsvReader.Tokenise | CSVReader.cpp:60-78 | the do-while loop over `start`/`end` returns exactly the field list `Tokens` of the line |
| CsvReader.TokensLoopReadsFields | CSVReader.cpp:66-76 | from any start position the loop appends exactly the fields from there to the tokens found so far |
| CsvReader.TokensLoopIsTokens | CSVReader.cpp:64-76 | started at the first non-separator with no tokens, the loop yields the line's field list `Tokens` |
| CsvReader.FieldsAtArePlain | CSVReader.cpp:67-75 | every field read from any position is non-empty and contains no separator |
| CsvReader.TokensArePlain | CSVReader.cpp:60-78 | `tokenise` never returns an empty token or a token containing the separator |
| CsvReader.FieldAt | CSVReader.cpp:69-74 | a plain field at a position is read whole, and reading resumes after the separator that ends it |
| CsvReader.FieldsAtJoin | CSVReader.cpp:67-75 | plain fields joined by the separator, read from where they start, give back the fields, also when more text follows a separator |
| CsvReader.TokensOfJoin | CSVReader.cpp:65-75 | splitting the join of non-empty separator-free fields gives the fields back (the round trip) |
| CsvReader.TokensStopAtEmptyField | CSVReader.cpp:70 | splitting stops at the first empty field: whatever follows two adjacent separators is dropped |
| CsvReader.FieldsAtIgnoreTrailingSeparator | CSVReader.cpp:70-75 | a trailing separator adds no field, from any position |
| CsvReader.TokensIgnoreTrailingSeparator | CSVReader.cpp:70-75 | a trailing separator adds no token |
| CsvReader.FieldsAtIgnoreLeadingSeparator | CSVReader.cpp:65-75 | a prefixed separator shifts positions and changes no field |
| CsvReader.TokensIgnoreLeadingSeparator | CSVReader.cpp:65 | leading separators are skipped |
| CsvReader.TokensExamples | CSVReader.cpp:60-78 | "a,b," gives [a, b]; "a,,b" gives [a]; an empty or all-separator line gives []; "ETH/BTC" split on '/' gives [ETH, BTC] |
| CsvReader.BaseQuoteOfPair | CSVReader.cpp:60-78 | a product written base/quote has `currs[0]` = base and `currs[1]` = quote |
| CsvReader.StringsToOBE | CSVReader.cpp:80-106 | fails unless there are exactly five tokens and both numbers parse; on success tokens 0-2 give timestamp, product and side, tokens 3-4 price and amount, and the rest take the defaults |
| CsvReader.FieldsToOBE | CSVReader.cpp:108-132 | fails exactly when a number does not parse; otherwise the price and amount are the parsed texts, the other arguments are copied, and the defaults fill the rest |
| CsvReader.RowOverloadsAgree | CSVReader.cpp:80-132 | a five-field row builds the same entry as its fields passed one by one to the five-argument overload |
| CsvReader.InsertKeyKeepsOrder | CSVReader.cpp:33-35 | setting a key in a `std::map<string,bool>` keeps its keys strictly sorted, with the key added |
| CsvReader.SortedKeysSpec | CSVReader.cpp:45-54 | the flattened key list is strictly sorted (so without repeats) and holds exactly the names seen |
| CsvReader.TimestampsOfMembers | CSVReader.cpp:35 | the timestamps `timestampsMap` records: a name is among them exactly when some parsed row carries it |
| CsvReader.ProductsOfMembers | CSVReader.cpp:33 | the products `prodMap` records: a name is among them exactly when some parsed row carries it |
| CsvReader.RowsAt | CSVReader.cpp:30 | exactly the rows with the timestamp |
| CsvReader.GroupedSpec | CSVReader.cpp:30 | `ordersByTimestamp` has a key exactly for each timestamp seen, and it holds that timestamp's rows in file order |
| CsvReader.RowsAtAbsent | CSVReader.cpp:30 | an unseen timestamp has no rows |
| CsvReader.ParsedRowsSnoc | CSVReader.cpp:25-40 | one more line adds its row when it parses, and nothing when the `catch` drops it |
| CsvReader.CollectSnoc | CSVReader.cpp:29-35 | one more row is pushed onto its timestamp's group, and its timestamp and product are set in the key maps |
| CsvReader.ReadCSV | CSVReader.cpp:8-58 | the result is the grouping of the rows that parse; the timestamp and product lists are strictly sorted and hold exactly the names seen; every group holds exactly its timestamp's rows |
| WalletStore.CreditedSpec | Wallet.cpp:15-24 | a credit through `operator[]` changes only that currency, by exactly the amount, and adds the key |
| WalletStore.TouchedKeepsBalances | Assets.cpp:93 | an `operator[]` read creates the key at 0 and changes no balance |
| WalletStore.ContainsCurrencyBounds | Wallet.cpp:47-54 | an absent currency is never held; enough is always accepted; an accepted balance is short by at most amount/10000 |
| WalletStore.ContainsCurrencyZero | Wallet.cpp:47-54 | absent fails even for amount 0, and a present zero balance holds 0 |
| WalletStore.CanFulfillOrder | Wallet.cpp:68-86 | an ask is affordable exactly when the base currency covers its amount; a bid exactly when the quote currency covers amount times price; any other kind is refused |
| WalletStore.FulfillableOrderIsWithdrawable | Wallet.cpp:28-86 | an affordable order's non-negative cost passes the removal guard in the currency checked |
| WalletStore.WithdrawUndoesCredit | Wallet.cpp:8-45 | removing what was just inserted succeeds and restores every balance |
| WalletStore.CreditUndoesWithdraw | Wallet.cpp:8-45 | crediting what was just removed restores the map |
| WalletStore.RemovalCanOverdraw | Wallet.cpp:36-39 | a successful removal can leave a negative balance (0.9999 of BTC less 1) |
| WalletStore.Wallet.constructor | Wallet.cpp:3-6 | a new wallet is empty |
| WalletStore.Wallet.InsertCurrency | Wallet.cpp:8-26 | a negative amount fails and changes nothing; otherwise the balance (0 if absent) grows by the amount and no other key changes |
| WalletStore.Wallet.RemoveCurrency | Wallet.cpp:28-45 | succeeds exactly for a non-negative amount of a present currency with a balance of at least 0.9999 of it; then the balance falls by exactly the amount, and otherwise nothing changes |
| AssetLedger.UpdateTotalSpec | Assets.cpp:91-94 | the total for the currency becomes free plus reserved; no other total, balance or holding changes |
| AssetLedger.FundedFromEmpty | Assets.cpp:11-21 | from empty wallets the free pool holds 10 BTC, 500 ETH, 50000 USDT and 10000000 DOGE; the reserved pool gains the four keys at 0; the totals equal the free pool |
| AssetLedger.ShareIgnoresTouch | Assets.cpp:24-31 | reading one currency of the free pool through `operator[]` does not change the share computed for the next |
| AssetLedger.OrderAmountsAfterFunding | Assets.cpp:11-31 | after seeding, the standard order sizes are 1 BTC, 50 ETH, 5000 USDT and 1000000 DOGE |
| AssetLedger.OrderAmountsAreShares | Assets.cpp:24-31 | each seeded currency's order size is 10% of its free balance; other currencies keep their entries |
| AssetLedger.BlockMovesFunds | Assets.cpp:75-80 | when the free pool covers it, blocking moves exactly the amount from free to reserved and keeps every holding |
| AssetLedger.BlockWithoutCoverInflates | Assets.cpp:75-80 | when the removal fails, reserved still grows by the amount and the holding grows with it |
| AssetLedger.BlockWithoutCoverExample | Assets.cpp:75-80 | blocking 5 USDT with 1 free leaves 1 free and 5 reserved |
| AssetLedger.UnblockUndoesBlock | Assets.cpp:75-88 | on the success path, unblocking what was blocked restores the free pool and every reserved balance |
| AssetLedger.UpdateTotalTwice | Assets.cpp:91-94 | two total refreshes set both totals to their holdings and change nothing else |
| AssetLedger.AskSettledSpec | Assets.cpp:39-51 | an ask sale adds amount times price to free quote and removes the amount from reserved base; both totals follow their holdings; other currencies are unchanged |
| AssetLedger.BidSettledSpec | Assets.cpp:53-71 | a bid sale adds the amount to free base and refunds the overbid to free quote; reserved quote falls by the price paid plus the refund; the quote total falls by exactly the price paid |
| AssetLedger.SettleBidSale | Assets.cpp:53-71 | a bid sale releases amount*(price+priceDifference), which is what the bid reserved, and the participant pays amount*price |
| AssetLedger.SettleOtherIsNoop | Assets.cpp:39-53 | a non-sale entry leaves all three wallets unchanged |
| AssetLedger.CancellationReleaseSwapsCurrencies | Assets.cpp:97-114 | the helper releases a bid in the first currency and an ask in the second, the reverse of what placement reserved (see Findings) |
| AssetLedger.CancellationReleaseExample | Assets.cpp:103-114 | a bid on ETH/BTC is released in ETH, an ask in BTC |
| AssetLedger.MoveKeepsSum | Assets.cpp:117-118 | moving an amount from one wallet to another keeps their combined balance of every currency |
| AssetLedger.MoveWithinKeepsMap | Assets.cpp:117-118 | debiting and crediting the same wallet leaves its balances as they were |
| AssetLedger.Assets.constructor | Assets.cpp:5-8 | three distinct empty wallets and no order sizes |
| AssetLedger.Assets.UpdateTotalAssets | Assets.cpp:91-94 | the wallets become `UpdateTotal` of the old wallets |
| AssetLedger.Assets.AddFunds | Assets.cpp:11-21 | the wallets become `Funded` of the old wallets; no insert fails |
| AssetLedger.Assets.SetStandardOrderAmounts | Assets.cpp:24-31 | the order sizes become the 10% shares of the old free pool, which gains the four keys |
| AssetLedger.Assets.BlockAmount | Assets.cpp:75-80 | fails and changes nothing exactly for a negative amount; otherwise does the non-atomic `Blocked` transition |
| AssetLedger.Assets.UnblockAmount | Assets.cpp:83-88 | fails and changes nothing exactly for a negative amount; otherwise does the `Unblocked` transition |
| AssetLedger.Assets.ProcessSale | Assets.cpp:34-72 | the wallets become `Settled` of the old wallets |
| AssetLedger.Assets.ProcessOrderCancellation | Assets.cpp:97-119 | the chosen amount moves from the reserved to the standard wallet in the chosen currency; when both are the same wallet its balances stay |
| MatchingEngine.OrdersWhereAppend | OrderBook.cpp:10-27 | filtering a concatenation filters each part |
| MatchingEngine.OrdersWhereMembers | OrderBook.cpp:10-27 | an entry is kept exactly when it has the side, product and timestamp and is not cancelled |
| MatchingEngine.CarriedOrderIsNeverMatched | OrderBook.cpp:20 | an entry stamped with another tick is never selected |
| MatchingEngine.CancelledOrderIsNeverMatched | OrderBook.cpp:21 | a cancelled entry is never selected |
| MatchingEngine.GetOrders | OrderBook.cpp:10-27 | the loop returns the filter, in input order; the input is a value and is not changed |
| MatchingEngine.InsertSpec | OrderBook.cpp:55-57 | inserting into a price-sorted list keeps it sorted and adds exactly the entry |
| MatchingEngine.InsertionSortSpec | OrderBook.cpp:55-57 | a sorted permutation by price exists for every list, in either direction |
| MatchingEngine.SortByPrice | OrderBook.cpp:55-57 | `std::sort` returns some price-sorted permutation of its input |
| MatchingEngine.FillIsMinimum | OrderBook.cpp:99-129 | a fill trades min(remaining ask, remaining bid) and takes it off both, so neither goes negative; the ask is exhausted exactly when nothing of it is left |
| MatchingEngine.SaleRecordAttribution | OrderBook.cpp:82-97 | a sale is at the ask price with the bid's surplus in priceDifference; it is the dataset's ask sale unless the participant is on one side; a participant bid makes it a bid sale, and a participant ask, tested last, an ask sale |
| MatchingEngine.UnresolvedSnoc | OrderBook.cpp:142-145 | one more order adds itself exactly when it is the participant's with a positive remainder |
| MatchingEngine.UnresolvedMembers | OrderBook.cpp:142-156 | exactly the participant's orders with a positive remainder are kept |
| MatchingEngine.TotalAppend | OrderBook.cpp:99-129 | appending a sale adds its amount to the total |
| MatchingEngine.TotalUpdate | OrderBook.cpp:99-129 | changing one order's amount changes the total by the difference |
| MatchingEngine.DrawnTransitive | OrderBook.cpp:70-138 | "only amounts decrease, within [0, start]" composes |
| MatchingEngine.DrawnKeepsPrices | OrderBook.cpp:70-138 | the pass changes no price |
| MatchingEngine.SortedBySamePrices | OrderBook.cpp:57 | the bids stay sorted when only amounts change |
| MatchingEngine.MatchAskDraws | OrderBook.cpp:72-138 | one ask's sweep changes only amounts, and every remainder stays between 0 and where it started |
| MatchingEngine.MatchAskConserves | OrderBook.cpp:72-138 | one ask's sales add up to what the ask lost and to what the bids lost |
| MatchingEngine.MatchAskSales | OrderBook.cpp:78-129 | every new sale is at the ask's price for the product and tick, with a non-negative surplus; earlier sales are kept |
| MatchingEngine.MatchFromDraws | OrderBook.cpp:70-138 | over the whole pass no remainder goes negative or grows, so no order sells more than its amount |
| MatchingEngine.MatchFromConserves | OrderBook.cpp:70-138 | the traded total equals what the asks lost in total and what the bids lost in total |
| MatchingEngine.MatchFromSales | OrderBook.cpp:78-85 | every sale is at some ask's price, for the product and tick, with a non-negative surplus; asks keep their prices and earlier sales are kept |
| MatchingEngine.MatchAskReshapes | OrderBook.cpp:86-128 | matching one ask changes nothing in the ask or the bid book but remainders |
| MatchingEngine.MatchAskRecords | OrderBook.cpp:81-128 | every sale one ask books is the sale record of that ask and a bid of the book priced at or above it, with the amount traded |
| MatchingEngine.MatchFromRecords | OrderBook.cpp:78-128 | every sale of the pass is the sale record of an ask and a bid of the books the pass started from |
| MatchingEngine.MatchFromSaleTerms | OrderBook.cpp:78-128 | every sale of the pass is at the price of an ask of the books, its priceDifference is a bid's price less that ask's price with the bid at or above the ask, and it is the participant's exactly when that ask or that bid is |
| MatchingEngine.MatchAskClears | OrderBook.cpp:75-137 | with bids sorted richest first, an ask leaves its sweep exhausted or priced above every bid with something left |
| MatchingEngine.MatchFromClears | OrderBook.cpp:70-138 | the no-crossing property holds ask by ask through the outer loop |
| MatchingEngine.NoCrossedRemainder | OrderBook.cpp:55-138 | after the pass, no ask and bid that both have something left are crossed |
| MatchingEngine.MatchAskWithoutBids | OrderBook.cpp:75-76 | bids already used up are skipped; with none left an ask trades nothing |
| MatchingEngine.MatchFromWithoutBids | OrderBook.cpp:70-138 | with every bid used up, the pass changes nothing and books no sale |
| MatchingEngine.MatchExample | OrderBook.cpp:99-107 | a bid of 10 at 100 against an ask of 10 at 95 gives one sale of 10 at 95 with priceDifference 5, and nothing unresolved |
| MatchingEngine.SweepBids | OrderBook.cpp:72-138 | the inner loop's result is `MatchAsk` from bid 0 |
| MatchingEngine.OrderBook.constructor | OrderBook.cpp:4-7 | a new book has no active orders |
| MatchingEngine.OrderBook.MatchSorted | OrderBook.cpp:70-156 | the sales are those of `MatchFrom` over the sorted lists; `activeUserOrders` gains the unresolved asks, then the unresolved bids, once each |
| MatchingEngine.OrderBook.KeepUnresolved | OrderBook.cpp:149-156 | `activeUserOrders` gains exactly the participant's bids with something left, in bid order |
| MatchingEngine.OrderBook.MatchAsksToBids | OrderBook.cpp:30-170 | the asks and bids are filtered and then sorted, ascending and descending, as permutations; the sales and active-order updates are those of the pass over them |
| TradingBot.LiveOrdersAppend | MerkelBot.cpp:130-143 | filtering a concatenation filters each part |
| TradingBot.LiveOrdersMembers | MerkelBot.cpp:130-159 | an order is live exactly when it is in the tick with that product and side; status is not looked at |
| TradingBot.LiveOrdersKeepCancelled | MerkelBot.cpp:130-143 | a cancelled bid is live for the survey but not selected by matching |
| TradingBot.BestPriceIsExtreme | MerkelBot.cpp:178-229 | the survey ends at a price that no order of the side beats, that the start does not beat, and that is the start or some order's price |
| TradingBot.BestPriceIsAnOrderPrice | MerkelBot.cpp:181-195 | starting from the first order's price, the survey ends at an order's price |
| TradingBot.ReferencePriceBounds | MerkelBot.cpp:232-239 | the reference price is at most the min ask and at least the lower of the two prices; it equals the min ask exactly when the min ask is at most the max bid |
| TradingBot.RequoteSpec | MerkelBot.cpp:178-229 | with orders of the side, the new best is some live order's price and no live order beats it; without, the old price stays; other products are unchanged |
| TradingBot.QuoteProductSpec | MerkelBot.cpp:169-239 | for one product, the max bid is the highest live bid (kept when there is none) and the min ask the lowest live ask; the reference price is built from the new pair; other products are unchanged |
| TradingBot.QuoteProductLocal | MerkelBot.cpp:169-239 | a product's survey reads only that product's earlier prices |
| TradingBot.QuoteProductIdempotent | MerkelBot.cpp:169-239 | surveying a product twice gives what one survey gives |
| TradingBot.MarketPricesAt | MerkelBot.cpp:162-241 | after the loop every listed product reads as its own survey, even when listed twice; an unlisted one keeps its prices |
| TradingBot.ReleaseSpec | MerkelBot.cpp:449-478 | only carried participant orders are withdrawn: an ask exactly when its price is below the max bid or the forecast, releasing its amount of base; a bid exactly when its price is above the min ask or the forecast, releasing amount*price of quote |
| TradingBot.MarkKeepsLater | MerkelBot.cpp:459-472 | marking an order cancelled changes no later order's release |
| TradingBot.ReleasedDependsOnSuffix | MerkelBot.cpp:449-480 | the releases still to come depend only on the orders not yet visited |
| TradingBot.CancelFromOrders | MerkelBot.cpp:446-481 | the pass changes no order except by marking it cancelled; when it runs to the end each order is exactly `Cancelled` of itself |
| TradingBot.CancelFromRunsToEnd | MerkelBot.cpp:446-481 | the pass runs to the end exactly when no release is negative |
| TradingBot.CancelFromLedger | MerkelBot.cpp:446-481 | after a full pass each currency's free balance grows by exactly that currency's releases; its reserved balance falls by at most that and never grows; totals are untouched |
| TradingBot.CancellationCurrencyDiffers | Assets.cpp:103-107 | the pass releases a bid in the currency placement reserved, while `processOrderCancellation` would pick the other one for the same amount |
| TradingBot.PlaceStepSpec | MerkelBot.cpp:340-443 | one product leaves tick and pools alone, or appends one affordable participant order of the side at the tick, with the rule met; an order is appended exactly when the rule wants one, its figures parse and the free pool covers it; when its price and amount read back exactly it is at the lowest ask (bid) or the reference price (ask) for the standard size of the base currency, and the pools become the old ones with its reserve blocked |
| TradingBot.PlaceStepKeepsHoldings | MerkelBot.cpp:372-434 | when the order's price and amount read back exactly, admitting it keeps the holding of every currency |
| TradingBot.PlacedFromSpec | MerkelBot.cpp:340-443 | the placement loop keeps the earlier orders and appends no more orders than there are products listed, each a participant order for a listed product with the side's rule met, at that product's price and standard size when those read back exactly; when every listed product's figures read back exactly, no holding changes |
| TradingBot.QuietProductGetsNoAsk | MerkelBot.cpp:398-400 | no ask is placed for a product whose min ask and max bid are both 0 |
| TradingBot.CarriedOrderReleasesItsReserve | MerkelBot.cpp:453-478 | a placed order, once carried and withdrawn, releases exactly what placing it reserved |
| TradingBot.CarriedOverSpec | MerkelBot.cpp:65-69 | carryover changes only the status, to "carryover"; a participant order becomes one the next cancellation pass looks at |
| TradingBot.CarriedOrdersAreNotMatched | MerkelBot.cpp:67-68 | carried orders keep their old timestamp and add nothing to what the next tick's matching selects |
| TradingBot.OtherTicksAreNotMatched | OrderBook.cpp:18-21 | orders stamped with another tick are never selected |
| TradingBot.TradeFrame | MerkelBot.cpp:111-116 | trading keeps the prices and every other tick; after a full pass the tick's orders are the cancelled ones, followed only by new participant orders for listed products |
| TradingBot.FirstTickOnlySurveys | MerkelBot.cpp:97-117 | on the first tick only the prices change; orders and pools stay |
| TradingBot.MerkelBot.constructor | MerkelBot.cpp:3-6 | empty schedule, prices, forecasts and wallets, and no active orders |
| TradingBot.MerkelBot.GetLiveBidsForProduct | MerkelBot.cpp:130-143 | returns, in order, the current tick's bids for the product, whatever their status |
| TradingBot.MerkelBot.GetLiveAsksForProduct | MerkelBot.cpp:146-159 | returns, in order, the current tick's asks for the product, whatever their status |
| TradingBot.MerkelBot.SurveyBest | MerkelBot.cpp:181-222 | the loop's result is the survey from the first order's price |
| TradingBot.MerkelBot.GetMarketPrices | MerkelBot.cpp:162-241 | the price maps become `MarketPrices` over the current tick; nothing else changes |
| TradingBot.MerkelBot.CancelBotOrders | MerkelBot.cpp:446-481 | the tick's orders and the pools become those of `CancelFrom`; `ok` is false exactly when an unblock threw |
| TradingBot.MerkelBot.PlaceBotAsks | MerkelBot.cpp:391-443 | the tick's orders and the pools become those of the ask placement loop |
| TradingBot.MerkelBot.PlaceBotBids | MerkelBot.cpp:340-388 | the tick's orders and the pools become those of the bid placement loop |
| TradingBot.MerkelBot.SubmitOrder | MerkelBot.cpp:362-440 | an order whose figures read back is pushed exactly when the free pool covers it, and then `reserve` of the currency is blocked unless it is negative (a throw); otherwise tick and pools stay |
| TradingBot.MerkelBot.CarryOver | MerkelBot.cpp:65-72 | the next tick gains every active order marked "carryover", in order, and the active list is emptied |
| TradingBot.MerkelBot.TradeTick | MerkelBot.cpp:111-116 | cancellation, then asks, then bids, as `Trade` states; an unblock that throws stops the rest |
| TradingBot.MerkelBot.ProcessBotActions | MerkelBot.cpp:97-127 | the state becomes `BotActions`: prices are surveyed, and trading happens on every tick but the first |

## Left out

- `linRegressionPrediction` and `updatePricePrediction` (MerkelBot.cpp:266-337) are floating-point regression. The forecasts are an input map (`pricePrediction`), so `ProcessBotActions` does not update them.
- `avgHistoricalPrices` is only read by the regression, so the push of each tick's averages is not modelled.
- All logging is file output only: `logBotOrder`, `logBotSale`, `logTotalAssetsUSD`, `logSalesImpact`, `Assets::logAssets`, `Wallet::toString`, `operator<<`, the log loop at the end of `processBotActions`, and the file-stream setup in `init`.
- Reading the file in `readCSV` (`ifstream`, `getline`) is I/O. `ReadCSV` takes the lines as a sequence.
- `std::stod` is a function parameter returning `Option`. `None` stands for the exception it throws.
- The price and amount text (`stringstream`, `std::to_string`) is I/O formatting. It is the `Formatting` parameter. The exact-value results hold under `ReadsBack`: writing the order's own price and amount and reading them back gives the same figures. `ReadsBackCanHold` shows some formatting meets it for any two figures.
- `std::chrono` timing and the console prints in `matchAsksToBids` are instrumentation; main.cpp is not part of this model.
- `runMarketSales` (MerkelBot.cpp:244-263) and the tick loop of `init` (MerkelBot.cpp:49-94) only compose modelled operations. They are `MatchAsksToBids` per product, `ProcessSale` per sale, then `CarryOver` and `ProcessBotActions`. Since the order of equal-priced entries is not fixed, the composition is not stated as one function.
- Header declarations with no body in the shown sources are not modelled: `getNextTime`, `getMoneyRatio`, `insertOrder`, `transferActiveOrders`, `getHighPrice`, `getLowPrice` and the file-name constructor.
- `double` rounding and NaN are not modelled. Amounts and prices are `real`, and 0.9999 is exactly 9999/10000.
- The driver's price maps, forecasts and standard order sizes are only ever read through `operator[]`. A read that inserts 0 there cannot be observed, so it is modelled as a read with default 0. Wallet reads keep the insertion.
- The `try`/`catch` blocks in `getMarketPrices` guard loops that cannot throw, so they are not modelled.
- An exception that escapes `cancelBotOrders` ends the program. `CancelBotOrders` and `ProcessBotActions` return `ok = false` instead, and the model stops the tick's actions there. The order's cancelled mark, already made, is kept.
- `MatchingEngine.SortByPrice` models `std::sort` as any price-sorted permutation, not one particular arrangement.
- `MatchingEngine.OrderBook.MatchAsksToBids` returns the sorted lists as ghost outputs, because `std::sort`'s arrangement is not determined.
- The copy of `timestamps`, `ordersByTimestamp` and `products` into the driver in `init` (MerkelBot.cpp:17-27) is a plain copy of `ReadCSV`'s result and is not modelled on its own.
- `TradingBot.PlaceStepSpec`: the exact pool update is stated only when the order's price and amount read back exactly (`ReadsBack`), because in general formatting may change the figures. When they do not read back exactly, the model says only that the order was affordable, not its price, its amount or what is blocked. `TradingBot.PlaceStepKeepsHoldings` and `TradingBot.PlacedFromSpec` keep holdings under the same per-order condition.
- `TradingBot.PlacedFromSpec`: bounds the number of new orders by the number of listings and ties each to some listed product. It does not pair orders with listings one to one. `TradingBot.PlaceStepSpec` states the one-order-per-listing step.
- `TradingBot.CancelFromLedger`: the reserved pool is only bounded, not stated exactly. Each unblock's removal is guarded and may fail, leaving the reserved balance unchanged.
- `SweepBids`, `MatchSorted`, `KeepUnresolved`, `SurveyBest`, `SubmitOrder` and `TradeTick` are the source's loops, `try` block and `if` body moved into methods of their own. They add no behaviour.
- `AssetLedger.Assets.ProcessOrderCancellation`: a product with no '/' makes `currs[1]` (or `currs[0]`) out of range, which is undefined behaviour in the source. The precondition requires the product to split into enough currencies. The same applies to `CanFulfillOrder`, `Settled` and the participant's rules, which need two-currency products. The precondition also requires a bid or an ask, and so does `CancellationRelease`'s: for any other order type neither branch runs, so the source moves an uninitialised `blockedAmount` under the empty currency name, which is undefined behaviour as well.

## Findings

| source | as written | input that shows it | evidently intended | confidence | as-written member | corrected member |
|---|---|---|---|---|---|---|
| Assets.cpp:103-114 | `processOrderCancellation` releases a bid's `amount * price` in `currs[0]` and an ask's `amount` in `currs[1]` | a bid of 3 ETH/BTC at 0.02 would release 0.06 ETH, though placement blocked 0.06 BTC | as its own comments say, a bid releases the quote currency (`currs[1]`) and an ask the base (`currs[0]`), as the cancellation pass does | not executed | AssetLedger.CancellationReleaseExample | TradingBot.CarriedOrderReleasesItsReserve |
