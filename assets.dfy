/**
 * The participant's holdings in two pools, free ("standard") and
 * committed to open orders ("reserved"), plus a third wallet that holds the
 * per-currency sum of the two. Each operation of `Assets` is tied to a
 * transition on the three maps, and the lemmas state what the transitions
 * do to balances and holdings.
 */
module AssetLedger {
  import opened OrderEntries
  import opened WalletStore
  import CsvReader

  /** The three wallets' maps: free funds, committed funds, and their per-currency sum. */
  datatype Ledger = Ledger(standard: Balances, reserved: Balances, total: Balances)

  /** What the participant holds of `c` across both pools. */
  function Holding(l: Ledger, c: string): real {
    Balance(l.standard, c) + Balance(l.reserved, c)
  }

  /** The seeded balances of `addFunds`. */
  const SeedBTC: real := 10.0
  const SeedETH: real := 500.0
  const SeedUSDT: real := 50000.0
  const SeedDOGE: real := 10000000.0

  /** The share of a free balance one standard order commits. */
  const StandardFraction: real := 0.10

  /**
   * `updateTotalAssets(c)`: both pools are read through `operator[]`, so
   * both gain the key `c` when absent, and the total for `c` becomes their sum.
   */
  function UpdateTotal(l: Ledger, c: string): Ledger {
    Ledger(Touched(l.standard, c), Touched(l.reserved, c), l.total[c := Holding(l, c)])
  }

  /** A refreshed total is the sum of the pools for that currency; no other balance changes. */
  lemma UpdateTotalSpec(l: Ledger, c: string)
    ensures Balance(UpdateTotal(l, c).total, c) == Balance(l.standard, c) + Balance(l.reserved, c)
    ensures forall k :: k != c ==> Balance(UpdateTotal(l, c).total, k) == Balance(l.total, k)
    ensures forall k :: Balance(UpdateTotal(l, c).standard, k) == Balance(l.standard, k)
    ensures forall k :: Balance(UpdateTotal(l, c).reserved, k) == Balance(l.reserved, k)
    ensures forall k :: Holding(UpdateTotal(l, c), k) == Holding(l, k)
  {
    TouchedKeepsBalances(l.standard, c);
    TouchedKeepsBalances(l.reserved, c);
  }

  /** One line pair of `addFunds`: insert into the free pool, then refresh the total. */
  function Deposit(l: Ledger, c: string, amount: real): Ledger {
    UpdateTotal(l.(standard := Credited(l.standard, c, amount)), c)
  }

  /** `addFunds`: the four seeded currencies in turn. */
  function Funded(l: Ledger): Ledger {
    Deposit(Deposit(Deposit(Deposit(l, "BTC", SeedBTC), "ETH", SeedETH), "USDT", SeedUSDT), "DOGE", SeedDOGE)
  }

  /** From empty wallets, seeding gives each currency its seed in the free pool and in the total. */
  lemma FundedFromEmpty()
    ensures var l := Funded(Ledger(map[], map[], map[]));
      && l.standard == map["BTC" := SeedBTC, "ETH" := SeedETH, "USDT" := SeedUSDT, "DOGE" := SeedDOGE]
      && l.reserved == map["BTC" := 0.0, "ETH" := 0.0, "USDT" := 0.0, "DOGE" := 0.0]
      && l.total == l.standard
  {
  }

  /**
   * `setStandardOrderAmounts`: each seeded currency's order size is a tenth
   * of its free balance, read through `operator[]` (so the free pool gains
   * the key when absent).
   */
  function SetOrderAmount(amounts: map<string, real>, standard: Balances, c: string): map<string, real> {
    amounts[c := StandardFraction * Balance(standard, c)]
  }

  /**
   * Touching a key of a free pool that reads like `original` leaves it
   * reading like `original`, so a share read from it afterwards is the share
   * of `original`.
   */
  lemma ShareIgnoresTouch(amounts: map<string, real>, original: Balances, standard: Balances, touched: string, c: string)
    requires forall k :: Balance(standard, k) == Balance(original, k)
    ensures forall k :: Balance(Touched(standard, touched), k) == Balance(original, k)
    ensures SetOrderAmount(amounts, Touched(standard, touched), c) == SetOrderAmount(amounts, original, c)
  {
  }

  function OrderAmounts(amounts: map<string, real>, standard: Balances): map<string, real> {
    SetOrderAmount(SetOrderAmount(SetOrderAmount(SetOrderAmount(amounts, standard, "BTC"), standard, "ETH"), standard, "USDT"), standard, "DOGE")
  }

  function TouchedSeeds(standard: Balances): Balances {
    Touched(Touched(Touched(Touched(standard, "BTC"), "ETH"), "USDT"), "DOGE")
  }

  /** After seeding, a standard order is a tenth of each seed. */
  lemma OrderAmountsAfterFunding()
    ensures var s := Funded(Ledger(map[], map[], map[])).standard;
      && OrderAmounts(map[], s) == map["BTC" := 1.0, "ETH" := 50.0, "USDT" := 5000.0, "DOGE" := 1000000.0]
      && TouchedSeeds(s) == s
  {
    FundedFromEmpty();
  }

  /** A standard order is always the fixed share of the free balance, whatever that balance is. */
  lemma OrderAmountsAreShares(amounts: map<string, real>, standard: Balances)
    ensures forall c :: c in {"BTC", "ETH", "USDT", "DOGE"} ==>
      OrderAmounts(amounts, standard)[c] == StandardFraction * Balance(standard, c)
    ensures forall c :: c !in {"BTC", "ETH", "USDT", "DOGE"} ==>
      (c in OrderAmounts(amounts, standard) <==> c in amounts)
  {
  }

  /**
   * `blockAmount(c, a)` for `a >= 0`: the reserved pool is credited first;
   * the free pool is then debited only if the guarded removal succeeds,
   * and its result is ignored.
   */
  function Blocked(l: Ledger, c: string, a: real): Ledger
    requires a >= 0.0
  {
    var reserved := Credited(l.reserved, c, a);
    var standard := if Withdrawable(l.standard, c, a) then Withdrawn(l.standard, c, a) else l.standard;
    Ledger(standard, reserved, l.total)
  }

  /** `unblockAmount(c, a)` for `a >= 0`: the mirror of `Blocked`, from reserved back to free. */
  function Unblocked(l: Ledger, c: string, a: real): Ledger
    requires a >= 0.0
  {
    var standard := Credited(l.standard, c, a);
    var reserved := if Withdrawable(l.reserved, c, a) then Withdrawn(l.reserved, c, a) else l.reserved;
    Ledger(standard, reserved, l.total)
  }

  /** When the free pool covers it, blocking moves exactly `a` and keeps the holding. */
  lemma BlockMovesFunds(l: Ledger, c: string, a: real)
    requires a >= 0.0 && Withdrawable(l.standard, c, a)
    ensures Balance(Blocked(l, c, a).standard, c) == Balance(l.standard, c) - a
    ensures Balance(Blocked(l, c, a).reserved, c) == Balance(l.reserved, c) + a
    ensures Holding(Blocked(l, c, a), c) == Holding(l, c)
    ensures forall k :: k != c ==> Holding(Blocked(l, c, a), k) == Holding(l, k)
  {
  }

  /**
   * When the free pool does not cover it, blocking still credits the
   * reserved pool: the holding grows by `a` out of nothing.
   */
  lemma BlockWithoutCoverInflates(l: Ledger, c: string, a: real)
    requires a >= 0.0 && !Withdrawable(l.standard, c, a)
    ensures Blocked(l, c, a).standard == l.standard
    ensures Balance(Blocked(l, c, a).reserved, c) == Balance(l.reserved, c) + a
    ensures Holding(Blocked(l, c, a), c) == Holding(l, c) + a
  {
  }

  /** Concretely: blocking 5 of a currency held at 1 leaves 1 free and 5 reserved. */
  lemma BlockWithoutCoverExample()
    ensures var l := Blocked(Ledger(map["USDT" := 1.0], map[], map[]), "USDT", 5.0);
      Balance(l.standard, "USDT") == 1.0 && Balance(l.reserved, "USDT") == 5.0
  {
  }

  /**
   * Unblocking what was just blocked, on the success path, gives back both
   * pools' balances (the reserved map may have gained the key at 0).
   */
  lemma UnblockUndoesBlock(l: Ledger, c: string, a: real)
    requires a >= 0.0 && Withdrawable(l.standard, c, a) && Balance(l.reserved, c) >= 0.0
    ensures Withdrawable(Blocked(l, c, a).reserved, c, a)
    ensures Unblocked(Blocked(l, c, a), c, a).standard == l.standard
    ensures Unblocked(Blocked(l, c, a), c, a).reserved == Touched(l.reserved, c)
    ensures forall k :: Holding(Unblocked(Blocked(l, c, a), c, a), k) == Holding(l, k)
  {
    WithdrawUndoesCredit(l.reserved, c, a);
    CreditUndoesWithdraw(l.standard, c, a);
    TouchedKeepsBalances(l.reserved, c);
  }

  /** Whether `processSale` needs the product split into two currencies. */
  predicate SettlesCurrencies(sale: OrderBookEntry) {
    sale.orderType == AskSale || sale.orderType == BidSale
  }

  /**
   * `processSale`. An ask sale brings `amount * price` of the quote
   * currency into the free pool and takes `amount` of the base out of the
   * reserved pool. A bid sale brings `amount` of the base into the free
   * pool, refunds `amount * priceDifference` of the quote to it, and takes
   * the amount reserved at the bid price, `amount * (price +
   * priceDifference)`, out of the reserved pool. Both totals are then
   * refreshed. Other kinds of entry change nothing.
   */
  function Settled(l: Ledger, sale: OrderBookEntry): Ledger
    requires SettlesCurrencies(sale) ==> CsvReader.IsPair(sale.product)
  {
    if sale.orderType == AskSale then
      AskSettled(l, CsvReader.Base(sale.product), CsvReader.Quote(sale.product), sale.amount, Value(sale))
    else if sale.orderType == BidSale then
      BidSettled(l, CsvReader.Base(sale.product), CsvReader.Quote(sale.product),
                 sale.amount, Value(sale), Overbid(sale))
    else
      l
  }

  /** What a trade of `amount` at `price` is worth in the quote currency. */
  function Value(e: OrderBookEntry): real {
    e.amount * e.price
  }

  /** What a bid sale's buyer reserved above the price paid, in the quote currency. */
  function Overbid(e: OrderBookEntry): real {
    e.amount * e.priceDifference
  }

  /**
   * The ask-sale branch of `processSale`: the proceeds into the free pool,
   * the amount sold out of the reserved one, then both totals.
   */
  function AskSettled(l: Ledger, base: string, quote: string, sold: real, proceeds: real): Ledger {
    UpdateTotal(UpdateTotal(Ledger(Credited(l.standard, quote, proceeds), Credited(l.reserved, base, -sold), l.total), quote), base)
  }

  /**
   * The bid-sale branch of `processSale`: the amount bought and the refund
   * of the overbid into the free pool, the price paid and the refund out of
   * the reserved one, then both totals.
   */
  function BidSettled(l: Ledger, base: string, quote: string, bought: real, paid: real, refund: real): Ledger {
    UpdateTotal(UpdateTotal(Ledger(Credited(Credited(l.standard, base, bought), quote, refund),
                                   Credited(l.reserved, quote, -(paid + refund)), l.total), base), quote)
  }

  /** Holdings and totals refreshed by two `UpdateTotal`s: the other balances are untouched. */
  lemma UpdateTotalTwice(l: Ledger, c1: string, c2: string)
    ensures var r := UpdateTotal(UpdateTotal(l, c1), c2);
      && (forall k :: Balance(r.standard, k) == Balance(l.standard, k))
      && (forall k :: Balance(r.reserved, k) == Balance(l.reserved, k))
      && Balance(r.total, c1) == Holding(l, c1)
      && Balance(r.total, c2) == Holding(l, c2)
      && forall k :: k != c1 && k != c2 ==> Balance(r.total, k) == Balance(l.total, k)
  {
    UpdateTotalSpec(l, c1);
    UpdateTotalSpec(UpdateTotal(l, c1), c2);
  }

  /**
   * An ask sale: the free quote grows by the proceeds, the reserved base
   * falls by the amount sold, and the totals of both follow their pools.
   */
  lemma AskSettledSpec(l: Ledger, base: string, quote: string, sold: real, proceeds: real)
    requires base != quote
    ensures var r := AskSettled(l, base, quote, sold, proceeds);
      && Balance(r.standard, quote) == Balance(l.standard, quote) + proceeds
      && Balance(r.reserved, base) == Balance(l.reserved, base) - sold
      && Balance(r.standard, base) == Balance(l.standard, base)
      && Balance(r.reserved, quote) == Balance(l.reserved, quote)
      && Holding(r, quote) == Holding(l, quote) + proceeds
      && Holding(r, base) == Holding(l, base) - sold
      && Balance(r.total, quote) == Holding(r, quote)
      && Balance(r.total, base) == Holding(r, base)
      && forall k :: k != base && k != quote ==>
        Holding(r, k) == Holding(l, k) && Balance(r.total, k) == Balance(l.total, k)
  {
    UpdateTotalTwice(Ledger(Credited(l.standard, quote, proceeds), Credited(l.reserved, base, -sold), l.total), quote, base);
  }

  /**
   * A bid sale: the free base grows by the amount bought, and the quote
   * holding falls by exactly the price paid, because the refund into the
   * free pool and the release from the reserved pool cancel out.
   */
  lemma BidSettledSpec(l: Ledger, base: string, quote: string, bought: real, paid: real, refund: real)
    requires base != quote
    ensures var r := BidSettled(l, base, quote, bought, paid, refund);
      && Balance(r.standard, base) == Balance(l.standard, base) + bought
      && Balance(r.standard, quote) == Balance(l.standard, quote) + refund
      && Balance(r.reserved, quote) == Balance(l.reserved, quote) - (paid + refund)
      && Balance(r.reserved, base) == Balance(l.reserved, base)
      && Holding(r, base) == Holding(l, base) + bought
      && Holding(r, quote) == Holding(l, quote) - paid
      && Balance(r.total, quote) == Holding(r, quote)
      && Balance(r.total, base) == Holding(r, base)
      && forall k :: k != base && k != quote ==>
        Holding(r, k) == Holding(l, k) && Balance(r.total, k) == Balance(l.total, k)
  {
    UpdateTotalTwice(Ledger(Credited(Credited(l.standard, base, bought), quote, refund),
                            Credited(l.reserved, quote, -(paid + refund)), l.total), base, quote);
  }

  /**
   * A bid sale of `q` at the ask price `p`, recorded with the overbid `d`:
   * the quote reserved at the bid price, `q * (p + d)`, leaves the reserved
   * pool, and the participant ends up paying `q * p`.
   */
  lemma SettleBidSale(l: Ledger, sale: OrderBookEntry)
    requires sale.orderType == BidSale && CsvReader.IsPair(sale.product)
    requires CsvReader.Base(sale.product) != CsvReader.Quote(sale.product)
    ensures var base := CsvReader.Base(sale.product);
      var quote := CsvReader.Quote(sale.product);
      var r := Settled(l, sale);
      && Balance(r.reserved, quote) == Balance(l.reserved, quote) - sale.amount * (sale.price + sale.priceDifference)
      && Holding(r, base) == Holding(l, base) + sale.amount
      && Holding(r, quote) == Holding(l, quote) - sale.amount * sale.price
  {
    var q, p, d := sale.amount, sale.price, sale.priceDifference;
    assert q * (p + d) == q * p + q * d;
    BidSettledSpec(l, CsvReader.Base(sale.product), CsvReader.Quote(sale.product), q, q * p, q * d);
  }

  /** Entries that are not sales leave the ledger as it was. */
  lemma SettleOtherIsNoop(l: Ledger, sale: OrderBookEntry)
    requires !SettlesCurrencies(sale)
    ensures Settled(l, sale) == l
  {
  }

  /**
   * `processOrderCancellation`'s choice of currency and amount: a bid
   * takes the product's first currency for `amount * price`, an ask the
   * second currency for `amount`.
   */
  function CancellationRelease(order: OrderBookEntry): (string, real)
    requires order.orderType == Bid || order.orderType == Ask
    requires order.orderType == Bid ==> |CsvReader.Tokens(order.product, '/')| >= 1
    requires order.orderType == Ask ==> CsvReader.IsPair(order.product)
  {
    if order.orderType == Bid then (CsvReader.Base(order.product), order.amount * order.price)
    else (CsvReader.Quote(order.product), order.amount)
  }

  /**
   * The currency `processOrderCancellation` releases is the other one of
   * the pair from the one the order's placement reserved: a bid reserves
   * the quote, an ask the base.
   */
  lemma CancellationReleaseSwapsCurrencies(order: OrderBookEntry)
    requires order.orderType == Bid || order.orderType == Ask
    requires CsvReader.IsPair(order.product)
    ensures order.orderType == Bid ==> CancellationRelease(order).0 == CsvReader.Base(order.product)
    ensures order.orderType == Ask ==> CancellationRelease(order).0 == CsvReader.Quote(order.product)
  {
  }

  /** Concretely: a bid on ETH/BTC would be released in ETH, an ask in BTC. */
  lemma CancellationReleaseExample()
    ensures CancellationRelease(OrderBookEntry(0.02, 3.0, "t", "ETH/BTC", Bid)) == ("ETH", 0.06)
    ensures CancellationRelease(OrderBookEntry(0.02, 3.0, "t", "ETH/BTC", Ask)) == ("BTC", 3.0)
  {
    CsvReader.BaseQuoteOfPair("ETH", "BTC");
    assert "ETH" + "/" + "BTC" == "ETH/BTC";
  }

  /** Moving `a` of `c` from one map to another keeps their combined balance of every currency. */
  lemma MoveKeepsSum(from: Balances, to: Balances, c: string, a: real)
    ensures forall k ::
      Balance(Credited(from, c, -a), k) + Balance(Credited(to, c, a), k) == Balance(from, k) + Balance(to, k)
  {
  }

  /** Debiting and crediting the same map: the balances end where they started. */
  lemma MoveWithinKeepsMap(m: Balances, c: string, a: real)
    ensures Credited(Credited(m, c, -a), c, a) == Touched(m, c)
  {
  }

  /** The participant's three wallets and its standard order sizes. */
  class Assets {
    const standardWallet: Wallet
    const reservedWallet: Wallet
    const totalAssets: Wallet
    var standardOrderAmount: map<string, real>

    /** The three wallets are distinct objects. */
    ghost predicate Valid()
      reads this
    {
      standardWallet != reservedWallet && standardWallet != totalAssets && reservedWallet != totalAssets
    }

    /** The three wallets' maps. */
    function View(): Ledger
      reads this, standardWallet, reservedWallet, totalAssets
    {
      Ledger(standardWallet.currencies, reservedWallet.currencies, totalAssets.currencies)
    }

    constructor()
      ensures Valid() && View() == Ledger(map[], map[], map[]) && standardOrderAmount == map[]
      ensures fresh(standardWallet) && fresh(reservedWallet) && fresh(totalAssets)
    {
      standardWallet := new Wallet();
      reservedWallet := new Wallet();
      totalAssets := new Wallet();
      standardOrderAmount := map[];
    }

    /** `updateTotalAssets(c)`. */
    method UpdateTotalAssets(currency: string)
      requires Valid()
      modifies standardWallet, reservedWallet, totalAssets
      ensures View() == UpdateTotal(old(View()), currency)
    {
      var s := Balance(standardWallet.currencies, currency);
      standardWallet.currencies := standardWallet.currencies[currency := s];
      var r := Balance(reservedWallet.currencies, currency);
      reservedWallet.currencies := reservedWallet.currencies[currency := r];
      totalAssets.currencies := totalAssets.currencies[currency := s + r];
    }

    /** `addFunds`: the seeded amounts are never negative, so no insert fails. */
    method AddFunds()
      requires Valid()
      modifies standardWallet, reservedWallet, totalAssets
      ensures View() == Funded(old(View()))
    {
      var ok := standardWallet.InsertCurrency("BTC", SeedBTC);
      UpdateTotalAssets("BTC");
      ok := standardWallet.InsertCurrency("ETH", SeedETH);
      UpdateTotalAssets("ETH");
      ok := standardWallet.InsertCurrency("USDT", SeedUSDT);
      UpdateTotalAssets("USDT");
      ok := standardWallet.InsertCurrency("DOGE", SeedDOGE);
      UpdateTotalAssets("DOGE");
    }

    /** `setStandardOrderAmounts`. */
    method SetStandardOrderAmounts()
      requires Valid()
      modifies this, standardWallet
      ensures standardOrderAmount == OrderAmounts(old(standardOrderAmount), old(standardWallet.currencies))
      ensures standardWallet.currencies == TouchedSeeds(old(standardWallet.currencies))
    {
      var standard := standardWallet.currencies;
      var amounts := standardOrderAmount;
      amounts := SetOrderAmount(amounts, standard, "BTC");
      ShareIgnoresTouch(amounts, standardWallet.currencies, standard, "BTC", "ETH");
      standard := Touched(standard, "BTC");
      amounts := SetOrderAmount(amounts, standard, "ETH");
      ShareIgnoresTouch(amounts, standardWallet.currencies, standard, "ETH", "USDT");
      standard := Touched(standard, "ETH");
      amounts := SetOrderAmount(amounts, standard, "USDT");
      ShareIgnoresTouch(amounts, standardWallet.currencies, standard, "USDT", "DOGE");
      standard := Touched(standard, "USDT");
      amounts := SetOrderAmount(amounts, standard, "DOGE");
      standard := Touched(standard, "DOGE");
      standardOrderAmount := amounts;
      standardWallet.currencies := standard;
    }

    /** `blockAmount(c, a)`: fails, changing nothing, exactly when the reserved insert throws. */
    method BlockAmount(currency: string, amount: real) returns (ok: bool)
      requires Valid()
      modifies standardWallet, reservedWallet
      ensures ok <==> amount >= 0.0
      ensures View() == if ok then Blocked(old(View()), currency, amount) else old(View())
    {
      ok := reservedWallet.InsertCurrency(currency, amount);
      if !ok {
        return;
      }
      var removed := standardWallet.RemoveCurrency(currency, amount);
    }

    /** `unblockAmount(c, a)`: fails, changing nothing, exactly when the free-pool insert throws. */
    method UnblockAmount(currency: string, amount: real) returns (ok: bool)
      requires Valid()
      modifies standardWallet, reservedWallet
      ensures ok <==> amount >= 0.0
      ensures View() == if ok then Unblocked(old(View()), currency, amount) else old(View())
    {
      ok := standardWallet.InsertCurrency(currency, amount);
      if !ok {
        return;
      }
      var removed := reservedWallet.RemoveCurrency(currency, amount);
    }

    /** `processSale`. */
    method ProcessSale(sale: OrderBookEntry)
      requires Valid()
      requires SettlesCurrencies(sale) ==> CsvReader.IsPair(sale.product)
      modifies standardWallet, reservedWallet, totalAssets
      ensures View() == Settled(old(View()), sale)
    {
      if sale.orderType == AskSale {
        var outgoingAmount := sale.amount;
        var incomingAmount := Value(sale);
        var outgoingCurrency := CsvReader.Base(sale.product);
        var incomingCurrency := CsvReader.Quote(sale.product);
        standardWallet.currencies := Credited(standardWallet.currencies, incomingCurrency, incomingAmount);
        reservedWallet.currencies := Credited(reservedWallet.currencies, outgoingCurrency, -outgoingAmount);
        UpdateTotalAssets(incomingCurrency);
        UpdateTotalAssets(outgoingCurrency);
      } else if sale.orderType == BidSale {
        var incomingAmount := sale.amount;
        var outgoingAmount := Value(sale);
        var residualAmount := Overbid(sale);
        var incomingCurrency := CsvReader.Base(sale.product);
        var outgoingCurrency := CsvReader.Quote(sale.product);
        standardWallet.currencies := Credited(standardWallet.currencies, incomingCurrency, incomingAmount);
        standardWallet.currencies := Credited(standardWallet.currencies, outgoingCurrency, residualAmount);
        reservedWallet.currencies := Credited(reservedWallet.currencies, outgoingCurrency, -(outgoingAmount + residualAmount));
        UpdateTotalAssets(incomingCurrency);
        UpdateTotalAssets(outgoingCurrency);
      }
    }

    /**
     * `processOrderCancellation(order, stdWallet, resWallet)`: moves the
     * released amount from `resWallet` to `stdWallet`; when both name the
     * same wallet, its balances end where they started.
     */
    method ProcessOrderCancellation(order: OrderBookEntry, stdWallet: Wallet, resWallet: Wallet)
      requires order.orderType == Bid || order.orderType == Ask
      requires order.orderType == Bid ==> |CsvReader.Tokens(order.product, '/')| >= 1
      requires order.orderType == Ask ==> CsvReader.IsPair(order.product)
      modifies stdWallet, resWallet
      ensures var (c, a) := CancellationRelease(order);
        if stdWallet != resWallet then
          && resWallet.currencies == Credited(old(resWallet.currencies), c, -a)
          && stdWallet.currencies == Credited(old(stdWallet.currencies), c, a)
        else
          stdWallet.currencies == Touched(old(stdWallet.currencies), c)
    {
      var currency: string;
      var blockedAmount: real;
      if order.orderType == Bid {
        currency := CsvReader.Base(order.product);
        blockedAmount := order.amount * order.price;
      }
      if order.orderType == Ask {
        currency := CsvReader.Quote(order.product);
        blockedAmount := order.amount;
      }
      resWallet.currencies := Credited(resWallet.currencies, currency, -blockedAmount);
      stdWallet.currencies := Credited(stdWallet.currencies, currency, blockedAmount);
    }
  }
}
