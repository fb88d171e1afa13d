/**
 * The simulated participant's rules: which live orders it looks at, the
 * market prices it derives from them, when it withdraws orders carried over
 * from an earlier tick, when it places new ones, and how its unresolved
 * orders move to the next tick.
 *
 * Every state-changing rule is a method of `MerkelBot` tied to a function
 * on values; the lemmas about those functions state what the rules promise.
 */
module TradingBot {
  import opened Wrappers
  import opened OrderEntries
  import opened WalletStore
  import opened AssetLedger
  import opened MatchingEngine
  import CsvReader

  /** All the orders of the replay, by timestamp. */
  type Schedule = map<string, seq<OrderBookEntry>>

  /** `orders[t]`: the orders of tick `t`; a tick never filled reads as empty. */
  function TickOrders(orders: Schedule, t: string): seq<OrderBookEntry> {
    if t in orders then orders[t] else []
  }

  /** Every product name splits into two currencies. */
  predicate AllPairs(products: seq<string>) {
    forall k :: 0 <= k < |products| ==> CsvReader.IsPair(products[k])
  }

  /** Every order of the participant in a tick names a product with two currencies. */
  predicate BotOrdersArePairs(tick: seq<OrderBookEntry>) {
    forall k :: 0 <= k < |tick| && tick[k].username == BotUser ==> CsvReader.IsPair(tick[k].product)
  }

  // ---------------------------------------------------------------------
  // Live orders
  // ---------------------------------------------------------------------

  /**
   * The orders of a tick for one product and one side, in their order; the
   * status is not looked at, so cancelled and carried orders are included.
   */
  function LiveOrders(tick: seq<OrderBookEntry>, product: string, side: OrderBookType): seq<OrderBookEntry>
    decreases |tick|
  {
    if |tick| == 0 then []
    else
      var rest := LiveOrders(tick[..|tick| - 1], product, side);
      if tick[|tick| - 1].product == product && tick[|tick| - 1].orderType == side then rest + [tick[|tick| - 1]]
      else rest
  }

  /** Filtering a concatenation filters each part. */
  lemma {:induction false} LiveOrdersAppend(a: seq<OrderBookEntry>, b: seq<OrderBookEntry>, product: string, side: OrderBookType)
    ensures LiveOrders(a + b, product, side) == LiveOrders(a, product, side) + LiveOrders(b, product, side)
    decreases |b|
  {
    if |b| == 0 {
      assert a + b == a;
    } else {
      assert (a + b)[..|a + b| - 1] == a + b[..|b| - 1];
      LiveOrdersAppend(a, b[..|b| - 1], product, side);
    }
  }

  /** Exactly the orders of the tick with that product and side are kept. */
  lemma {:induction false} LiveOrdersMembers(tick: seq<OrderBookEntry>, product: string, side: OrderBookType)
    ensures forall e :: e in LiveOrders(tick, product, side) <==> e in tick && e.product == product && e.orderType == side
    decreases |tick|
  {
    if |tick| > 0 {
      LiveOrdersMembers(tick[..|tick| - 1], product, side);
      assert tick == tick[..|tick| - 1] + [tick[|tick| - 1]];
    }
  }

  /** A cancelled bid is still live for the price survey, though matching ignores it. */
  lemma LiveOrdersKeepCancelled()
    ensures var bid := OrderBookEntry(2.0, 1.0, "t", "ETH/BTC", Bid, orderStatus := CancelledStatus);
      && LiveOrders([bid], "ETH/BTC", Bid) == [bid]
      && OrdersWhere([bid], Bid, "ETH/BTC", "t") == []
  {
    var bid := OrderBookEntry(2.0, 1.0, "t", "ETH/BTC", Bid, orderStatus := CancelledStatus);
    assert [bid][..0] == [];
  }

  // ---------------------------------------------------------------------
  // Market prices
  // ---------------------------------------------------------------------

  /** The three price maps the participant keeps per product. */
  datatype Prices = Prices(maxBid: map<string, real>, minAsk: map<string, real>, avg: map<string, real>)

  /** `x` is better than `y` for the side: higher for bids, lower for asks. */
  predicate Beats(x: real, y: real, side: OrderBookType) {
    if side == Bid then x > y else x < y
  }

  /**
   * The survey loop: starting from `start`, every order of the side whose
   * price beats the best so far becomes the best.
   */
  function BestPrice(s: seq<OrderBookEntry>, side: OrderBookType, start: real): real
    decreases |s|
  {
    if |s| == 0 then start
    else
      var best := BestPrice(s[..|s| - 1], side, start);
      if s[|s| - 1].orderType == side && Beats(s[|s| - 1].price, best, side) then s[|s| - 1].price else best
  }

  /**
   * The survey finds the extreme: nothing of the side beats it, nor does the
   * start, and it is the start or the price of an order of the side.
   */
  lemma {:induction false} BestPriceIsExtreme(s: seq<OrderBookEntry>, side: OrderBookType, start: real)
    ensures var best := BestPrice(s, side, start);
      && !Beats(start, best, side)
      && (forall k :: 0 <= k < |s| && s[k].orderType == side ==> !Beats(s[k].price, best, side))
      && (best == start || exists k :: 0 <= k < |s| && s[k].orderType == side && s[k].price == best)
    decreases |s|
  {
    if |s| > 0 {
      var prefix := s[..|s| - 1];
      BestPriceIsExtreme(prefix, side, start);
      var best := BestPrice(prefix, side, start);
      assert forall k :: 0 <= k < |prefix| ==> s[k] == prefix[k];
      if best != start {
        var k :| 0 <= k < |prefix| && prefix[k].orderType == side && prefix[k].price == best;
        assert s[k].orderType == side && s[k].price == best;
      }
    }
  }

  /** The survey over a non-empty list, starting at its first price, ends at the price of one of its orders of the side. */
  lemma BestPriceIsAnOrderPrice(s: seq<OrderBookEntry>, side: OrderBookType)
    requires |s| > 0 && s[0].orderType == side
    ensures exists k :: 0 <= k < |s| && s[k].orderType == side && s[k].price == BestPrice(s, side, s[0].price)
  {
    BestPriceIsExtreme(s, side, s[0].price);
  }

  /**
   * The reference price: the lowest ask when it is below the highest bid,
   * otherwise the middle of the spread.
   */
  function ReferencePrice(minAsk: real, maxBid: real): real {
    if minAsk < maxBid then minAsk else (minAsk + maxBid) / 2.0
  }

  /**
   * The reference price never exceeds the lowest ask and never falls below
   * the lower of the two prices; it equals the lowest ask exactly when the
   * ask does not exceed the bid, and reaches the bid exactly when the
   * market is not crossed.
   */
  lemma ReferencePriceBounds(minAsk: real, maxBid: real)
    ensures var r := ReferencePrice(minAsk, maxBid);
      && r <= minAsk
      && (minAsk <= maxBid ==> minAsk <= r) && (maxBid <= minAsk ==> maxBid <= r)
      && (r == minAsk <==> minAsk <= maxBid)
      && (r >= maxBid <==> minAsk >= maxBid)
  {
  }

  /** A price map after the survey of one product: rewritten only when the product has orders of the side. */
  function Requote(m: map<string, real>, live: seq<OrderBookEntry>, side: OrderBookType, p: string): map<string, real> {
    if |live| > 0 then m[p := BestPrice(live, side, live[0].price)] else m
  }

  /** `getMarketPrices`' body for one product. */
  function QuoteProduct(q: Prices, tick: seq<OrderBookEntry>, p: string): Prices {
    var maxBid := Requote(q.maxBid, LiveOrders(tick, p, Bid), Bid, p);
    var minAsk := Requote(q.minAsk, LiveOrders(tick, p, Ask), Ask, p);
    Prices(maxBid, minAsk, q.avg[p := ReferencePrice(Balance(minAsk, p), Balance(maxBid, p))])
  }

  /** `getMarketPrices`: the product bodies in product order. */
  function MarketPrices(q: Prices, tick: seq<OrderBookEntry>, products: seq<string>): Prices
    decreases |products|
  {
    if |products| == 0 then q
    else QuoteProduct(MarketPrices(q, tick, products[..|products| - 1]), tick, products[|products| - 1])
  }

  lemma MarketPricesStep(q: Prices, tick: seq<OrderBookEntry>, products: seq<string>, i: nat)
    requires i < |products|
    ensures MarketPrices(q, tick, products[..i + 1]) == QuoteProduct(MarketPrices(q, tick, products[..i]), tick, products[i])
  {
    assert products[..i + 1][..i] == products[..i];
  }

  /** Whether two price records read alike for one product. */
  predicate SameAt(q1: Prices, q2: Prices, p: string) {
    Balance(q1.maxBid, p) == Balance(q2.maxBid, p)
    && Balance(q1.minAsk, p) == Balance(q2.minAsk, p)
    && Balance(q1.avg, p) == Balance(q2.avg, p)
  }

  /**
   * One side of one product's survey: with orders of the side, the new
   * price is the price of one of them and none of them beats it; without,
   * the old price stays; other products keep theirs.
   */
  lemma RequoteSpec(m: map<string, real>, tick: seq<OrderBookEntry>, side: OrderBookType, p: string)
    ensures var live := LiveOrders(tick, p, side);
      var r := Requote(m, live, side, p);
      && (|live| > 0 ==>
            (exists e :: e in tick && e.product == p && e.orderType == side && e.price == Balance(r, p))
            && forall e :: e in tick && e.product == p && e.orderType == side ==> !Beats(e.price, Balance(r, p), side))
      && (|live| == 0 ==> Balance(r, p) == Balance(m, p))
      && forall k :: k != p ==> Balance(r, k) == Balance(m, k)
  {
    var live := LiveOrders(tick, p, side);
    LiveOrdersMembers(tick, p, side);
    if |live| > 0 {
      assert live[0] in live;
      var best := BestPrice(live, side, live[0].price);
      BestPriceIsExtreme(live, side, live[0].price);
      BestPriceIsAnOrderPrice(live, side);
      var j :| 0 <= j < |live| && live[j].orderType == side && live[j].price == best;
      assert live[j] in live;
      forall e | e in tick && e.product == p && e.orderType == side
        ensures !Beats(e.price, best, side)
      {
        var k :| 0 <= k < |live| && live[k] == e;
      }
    }
  }

  /**
   * One product's survey: the highest bid is the price of a live bid and no
   * live bid is higher, or stays when there is none; the same for asks with
   * "lowest"; the reference price is built from the two new prices; other
   * products keep their prices.
   */
  lemma QuoteProductSpec(q: Prices, tick: seq<OrderBookEntry>, p: string)
    ensures var r := QuoteProduct(q, tick, p);
      && (|LiveOrders(tick, p, Bid)| > 0 ==>
            (exists e :: e in tick && e.product == p && e.orderType == Bid && e.price == Balance(r.maxBid, p))
            && forall e :: e in tick && e.product == p && e.orderType == Bid ==> e.price <= Balance(r.maxBid, p))
      && (|LiveOrders(tick, p, Bid)| == 0 ==> Balance(r.maxBid, p) == Balance(q.maxBid, p))
      && (|LiveOrders(tick, p, Ask)| > 0 ==>
            (exists e :: e in tick && e.product == p && e.orderType == Ask && e.price == Balance(r.minAsk, p))
            && forall e :: e in tick && e.product == p && e.orderType == Ask ==> e.price >= Balance(r.minAsk, p))
      && (|LiveOrders(tick, p, Ask)| == 0 ==> Balance(r.minAsk, p) == Balance(q.minAsk, p))
      && Balance(r.avg, p) == ReferencePrice(Balance(r.minAsk, p), Balance(r.maxBid, p))
      && forall k :: k != p ==> SameAt(r, q, k)
  {
    RequoteSpec(q.maxBid, tick, Bid, p);
    RequoteSpec(q.minAsk, tick, Ask, p);
  }

  /** A product's survey depends on the earlier prices of that product only. */
  lemma QuoteProductLocal(q1: Prices, q2: Prices, tick: seq<OrderBookEntry>, p: string)
    requires SameAt(q1, q2, p)
    ensures SameAt(QuoteProduct(q1, tick, p), QuoteProduct(q2, tick, p), p)
  {
  }

  /** Surveying a product twice gives what surveying it once gives. */
  lemma QuoteProductIdempotent(q: Prices, tick: seq<OrderBookEntry>, p: string)
    ensures SameAt(QuoteProduct(QuoteProduct(q, tick, p), tick, p), QuoteProduct(q, tick, p), p)
  {
  }

  /**
   * After the survey of all products, each listed product reads as its own
   * survey from the starting prices, even when it is listed twice, and an
   * unlisted product keeps its prices.
   */
  lemma {:induction false} MarketPricesAt(q: Prices, tick: seq<OrderBookEntry>, products: seq<string>, p: string)
    ensures p in products ==> SameAt(MarketPrices(q, tick, products), QuoteProduct(q, tick, p), p)
    ensures p !in products ==> SameAt(MarketPrices(q, tick, products), q, p)
    decreases |products|
  {
    if |products| > 0 {
      var prefix := products[..|products| - 1];
      var last := products[|products| - 1];
      assert products == prefix + [last];
      MarketPricesAt(q, tick, prefix, p);
      var mid := MarketPrices(q, tick, prefix);
      QuoteProductSpec(mid, tick, last);
      if last == p {
        if p in prefix {
          QuoteProductLocal(mid, QuoteProduct(q, tick, p), tick, p);
          QuoteProductIdempotent(q, tick, p);
        } else {
          QuoteProductLocal(mid, q, tick, p);
        }
      }
    }
  }

  // ---------------------------------------------------------------------
  // Cancellation of carried orders
  // ---------------------------------------------------------------------

  /** The prices and the forecasts the participant's rules compare with. */
  datatype Outlook = Outlook(prices: Prices, prediction: map<string, real>)

  /** What the placement rules read: the outlook, order sizes, the tick, and how figures are written and read back. */
  datatype Context = Context(outlook: Outlook, amounts: map<string, real>, time: string, fmt: Formatting)

  /**
   * The text a price is written as (`std::stringstream`), the text an
   * amount is written as (`std::to_string`), and `std::stod` reading one
   * back; a failed read stands for the exception it throws.
   */
  datatype Formatting = Formatting(priceText: real -> string, amountText: real -> string, stod: string -> Option<real>)

  /** A participant order moved on from an earlier tick. */
  predicate Carried(o: OrderBookEntry) {
    o.orderStatus == CarryoverStatus && o.username == BotUser
  }

  /** A carried ask is withdrawn when it is below the highest bid or below the forecast. */
  predicate CancelsAsk(o: OrderBookEntry, ol: Outlook) {
    o.price < Balance(ol.prices.maxBid, o.product) || o.price < Balance(ol.prediction, o.product)
  }

  /** A carried bid is withdrawn when it is above the lowest ask or above the forecast. */
  predicate CancelsBid(o: OrderBookEntry, ol: Outlook) {
    o.price > Balance(ol.prices.minAsk, o.product) || o.price > Balance(ol.prediction, o.product)
  }

  /** What placing an order reserves: an ask its amount of the first currency, a bid its cost in the second. */
  function Reserve(o: OrderBookEntry): (string, real)
    requires CsvReader.IsPair(o.product)
  {
    if o.orderType == Ask then (CsvReader.Base(o.product), o.amount) else (CsvReader.Quote(o.product), Value(o))
  }

  /** What `cancelBotOrders` releases for one order, if it withdraws it. */
  function Release(o: OrderBookEntry, ol: Outlook): Option<(string, real)>
    requires o.username == BotUser ==> CsvReader.IsPair(o.product)
  {
    if !Carried(o) then None
    else if o.orderType == Ask && CancelsAsk(o, ol) then Some(Reserve(o))
    else if o.orderType == Bid && CancelsBid(o, ol) then Some(Reserve(o))
    else None
  }

  /**
   * Only carried participant orders are withdrawn; an ask exactly when it
   * is under the highest bid or the forecast, a bid exactly when it is over
   * the lowest ask or the forecast; and what is released is what placing
   * the order reserved, in the currency it reserved.
   */
  lemma ReleaseSpec(o: OrderBookEntry, ol: Outlook)
    requires o.username == BotUser ==> CsvReader.IsPair(o.product)
    ensures Release(o, ol).Some? <==>
      Carried(o) && ((o.orderType == Ask && CancelsAsk(o, ol)) || (o.orderType == Bid && CancelsBid(o, ol)))
    ensures Release(o, ol).Some? && o.orderType == Ask ==> Release(o, ol).value == (CsvReader.Base(o.product), o.amount)
    ensures Release(o, ol).Some? && o.orderType == Bid ==> Release(o, ol).value == (CsvReader.Quote(o.product), o.amount * o.price)
  {
    assert Value(o) == o.amount * o.price;
  }

  /** An order after the cancellation pass, when the pass runs to the end. */
  function Cancelled(o: OrderBookEntry, ol: Outlook): OrderBookEntry
    requires o.username == BotUser ==> CsvReader.IsPair(o.product)
  {
    if Release(o, ol).Some? then o.(orderStatus := CancelledStatus) else o
  }

  /** The pass over a tick: the orders, the participant's pools, and whether no release threw. */
  datatype Sweep = Sweep(tick: seq<OrderBookEntry>, ledger: Ledger, ok: bool)

  /**
   * `cancelBotOrders` from position `i`: a withdrawn order is marked
   * cancelled, then its release is returned to the free pool; a negative
   * release throws, which ends the pass with the mark already made.
   */
  function CancelFrom(tick: seq<OrderBookEntry>, i: nat, l: Ledger, ol: Outlook): Sweep
    requires i <= |tick| && BotOrdersArePairs(tick)
    decreases |tick| - i
  {
    if i == |tick| then Sweep(tick, l, true)
    else
      match Release(tick[i], ol)
      case None => CancelFrom(tick, i + 1, l, ol)
      case Some((c, a)) =>
        var marked := tick[i := tick[i].(orderStatus := CancelledStatus)];
        if a < 0.0 then Sweep(marked, l, false) else CancelFrom(marked, i + 1, Unblocked(l, c, a), ol)
  }

  /** The sum of the releases in currency `c` of the orders from position `i` on. */
  function Released(tick: seq<OrderBookEntry>, i: nat, c: string, ol: Outlook): real
    requires i <= |tick| && BotOrdersArePairs(tick)
    decreases |tick| - i
  {
    if i == |tick| then 0.0
    else
      var rest := Released(tick, i + 1, c, ol);
      match Release(tick[i], ol)
      case Some((c', a)) => if c' == c then a + rest else rest
      case None => rest
  }

  /** No order from position `i` on would release a negative amount. */
  predicate ReleasesNonNegative(tick: seq<OrderBookEntry>, i: nat, ol: Outlook)
    requires i <= |tick| && BotOrdersArePairs(tick)
  {
    forall k :: i <= k < |tick| ==> Release(tick[k], ol).Some? ==> Release(tick[k], ol).value.1 >= 0.0
  }

  /** Marking order `i` cancelled changes the releases of no later order. */
  lemma MarkKeepsLater(tick: seq<OrderBookEntry>, i: nat, c: string, ol: Outlook)
    requires i < |tick| && BotOrdersArePairs(tick)
    ensures BotOrdersArePairs(tick[i := tick[i].(orderStatus := CancelledStatus)])
    ensures var marked := tick[i := tick[i].(orderStatus := CancelledStatus)];
      Released(marked, i + 1, c, ol) == Released(tick, i + 1, c, ol)
      && ReleasesNonNegative(marked, i + 1, ol) == ReleasesNonNegative(tick, i + 1, ol)
  {
    var marked := tick[i := tick[i].(orderStatus := CancelledStatus)];
    ReleasedDependsOnSuffix(marked, tick, i + 1, c, ol);
  }

  /** `Released` from `i` reads only the orders from `i` on. */
  lemma {:induction false} ReleasedDependsOnSuffix(t1: seq<OrderBookEntry>, t2: seq<OrderBookEntry>, i: nat, c: string, ol: Outlook)
    requires i <= |t1| == |t2| && BotOrdersArePairs(t1) && BotOrdersArePairs(t2)
    requires forall k :: i <= k < |t1| ==> t1[k] == t2[k]
    ensures Released(t1, i, c, ol) == Released(t2, i, c, ol)
    decreases |t1| - i
  {
    if i < |t1| {
      ReleasedDependsOnSuffix(t1, t2, i + 1, c, ol);
    }
  }

  /**
   * The shape of a pass from `i` that ended with `r`: the positions before
   * `i` are untouched, and every later order is kept or marked as
   * `Cancelled` marks it; when the pass ran to the end, every later order
   * is exactly `Cancelled` of itself.
   */
  ghost predicate SweptFrom(tick: seq<OrderBookEntry>, i: nat, r: Sweep, ol: Outlook)
    requires i <= |tick| && BotOrdersArePairs(tick)
  {
    && |r.tick| == |tick|
    && (forall k :: 0 <= k < i ==> r.tick[k] == tick[k])
    && (forall k :: i <= k < |tick| ==> r.tick[k] == tick[k] || r.tick[k] == Cancelled(tick[k], ol))
    && (r.ok ==> forall k :: i <= k < |tick| ==> r.tick[k] == Cancelled(tick[k], ol))
  }

  /**
   * One withdrawn order: if the pass over the marked orders from `i + 1`
   * has the shape above, so has the pass over the orders from `i`.
   */
  lemma SweptStep(tick: seq<OrderBookEntry>, i: nat, ol: Outlook, marked: seq<OrderBookEntry>, r: Sweep)
    requires i < |tick| && BotOrdersArePairs(tick) && Release(tick[i], ol).Some?
    requires marked == tick[i := tick[i].(orderStatus := CancelledStatus)] && BotOrdersArePairs(marked)
    requires SweptFrom(marked, i + 1, r, ol)
    ensures SweptFrom(tick, i, r, ol)
  {
    assert marked[i] == Cancelled(tick[i], ol);
    forall k | i < k < |tick| ensures marked[k] == tick[k] {}
  }

  /** No release from `i` on is negative exactly when the one at `i` is not and none after it is. */
  lemma ReleasesNonNegativeStep(tick: seq<OrderBookEntry>, i: nat, ol: Outlook)
    requires i < |tick| && BotOrdersArePairs(tick)
    ensures ReleasesNonNegative(tick, i, ol) <==>
      (Release(tick[i], ol).Some? ==> Release(tick[i], ol).value.1 >= 0.0) && ReleasesNonNegative(tick, i + 1, ol)
  {
  }

  /** The pass from `i` has the shape above. */
  lemma {:induction false} CancelFromOrders(tick: seq<OrderBookEntry>, i: nat, l: Ledger, ol: Outlook)
    requires i <= |tick| && BotOrdersArePairs(tick)
    ensures SweptFrom(tick, i, CancelFrom(tick, i, l, ol), ol)
    decreases |tick| - i
  {
    if i < |tick| {
      match Release(tick[i], ol)
      case None =>
        CancelFromOrders(tick, i + 1, l, ol);
        assert CancelFrom(tick, i, l, ol) == CancelFrom(tick, i + 1, l, ol);
      case Some((c, a)) =>
        var marked := tick[i := tick[i].(orderStatus := CancelledStatus)];
        MarkKeepsLater(tick, i, c, ol);
        if a >= 0.0 {
          var r := CancelFrom(marked, i + 1, Unblocked(l, c, a), ol);
          assert CancelFrom(tick, i, l, ol) == r;
          CancelFromOrders(marked, i + 1, Unblocked(l, c, a), ol);
          SweptStep(tick, i, ol, marked, r);
        } else {
          assert CancelFrom(tick, i, l, ol) == Sweep(marked, l, false);
          assert marked[i] == Cancelled(tick[i], ol);
        }
    }
  }

  /** The pass from `i` runs to the end exactly when no release from `i` on is negative. */
  lemma {:induction false} CancelFromRunsToEnd(tick: seq<OrderBookEntry>, i: nat, l: Ledger, ol: Outlook)
    requires i <= |tick| && BotOrdersArePairs(tick)
    ensures CancelFrom(tick, i, l, ol).ok <==> ReleasesNonNegative(tick, i, ol)
    decreases |tick| - i
  {
    if i < |tick| {
      ReleasesNonNegativeStep(tick, i, ol);
      match Release(tick[i], ol)
      case None =>
        CancelFromRunsToEnd(tick, i + 1, l, ol);
      case Some((c, a)) =>
        var marked := tick[i := tick[i].(orderStatus := CancelledStatus)];
        MarkKeepsLater(tick, i, c, ol);
        if a >= 0.0 {
          CancelFromRunsToEnd(marked, i + 1, Unblocked(l, c, a), ol);
        }
    }
  }

  /**
   * The pools after a pass that runs to the end: the free pool of every
   * currency grows by exactly the releases in that currency, the reserved
   * pool shrinks by at most that much and never grows, and the totals are
   * not refreshed.
   */
  lemma {:induction false} CancelFromLedger(tick: seq<OrderBookEntry>, i: nat, l: Ledger, ol: Outlook, c: string)
    requires i <= |tick| && BotOrdersArePairs(tick)
    ensures var r := CancelFrom(tick, i, l, ol);
      && r.ledger.total == l.total
      && (r.ok ==> Balance(r.ledger.standard, c) == Balance(l.standard, c) + Released(tick, i, c, ol))
      && (r.ok ==> Balance(l.reserved, c) - Released(tick, i, c, ol) <= Balance(r.ledger.reserved, c) <= Balance(l.reserved, c))
    decreases |tick| - i
  {
    if i < |tick| {
      match Release(tick[i], ol)
      case None =>
        CancelFromLedger(tick, i + 1, l, ol, c);
      case Some((c', a)) =>
        var marked := tick[i := tick[i].(orderStatus := CancelledStatus)];
        MarkKeepsLater(tick, i, c, ol);
        if a >= 0.0 {
          CancelFromLedger(marked, i + 1, Unblocked(l, c', a), ol, c);
        }
    }
  }

  /**
   * `processOrderCancellation` would release a withdrawn bid in the first
   * currency of its pair, while placing it reserved the second; the
   * cancellation pass releases the currency that was reserved.
   */
  lemma CancellationCurrencyDiffers(o: OrderBookEntry, ol: Outlook)
    requires o.orderType == Bid && o.username == BotUser && CsvReader.IsPair(o.product)
    requires CsvReader.Base(o.product) != CsvReader.Quote(o.product)
    requires Release(o, ol).Some?
    ensures Release(o, ol).value.0 == Reserve(o).0
    ensures CancellationRelease(o).0 != Reserve(o).0
    ensures CancellationRelease(o).1 == Reserve(o).1
  {
  }

  // ---------------------------------------------------------------------
  // Placement
  // ---------------------------------------------------------------------

  /** The orders of the tick and the participant's pools during placement. */
  datatype Desk = Desk(tick: seq<OrderBookEntry>, ledger: Ledger)

  /** The share of the reference price the forecast must fall below before the participant places an ask. */
  const AskMargin: real := 0.995

  /** An amount times a price. */
  function Notional(amount: real, price: real): real {
    amount * price
  }

  /** The participant's new order: its figures are written as text and read back, which may fail. */
  function BotOrder(p: string, side: OrderBookType, price: real, amount: real, cx: Context): Option<OrderBookEntry> {
    match CsvReader.FieldsToOBE(cx.fmt.priceText(price), cx.fmt.amountText(amount), cx.time, p, side, cx.fmt.stod)
    case Success(o) => Some(o.(username := BotUser))
    case Failure(_) => None
  }

  /** Writing an order's price and amount as text and reading them back gives the same figures. */
  predicate ReadsBack(fmt: Formatting, price: real, amount: real) {
    fmt.stod(fmt.priceText(price)) == Some(price) && fmt.stod(fmt.amountText(amount)) == Some(amount)
  }

  /** Any two figures are read back by some formatting, so the placement lemmas' hypothesis can hold. */
  lemma ReadsBackCanHold(price: real, amount: real)
    ensures exists fmt :: ReadsBack(fmt, price, amount)
  {
    var fmt := Formatting(x => "p", x => "a", t => if t == "p" then Some(price) else Some(amount));
    assert ReadsBack(fmt, price, amount);
  }

  /** The price a bid is placed at: the lowest ask. */
  function BidPrice(p: string, cx: Context): real {
    Balance(cx.outlook.prices.minAsk, p)
  }

  /** The price an ask is placed at: the reference price. */
  function AskPrice(p: string, cx: Context): real {
    Balance(cx.outlook.prices.avg, p)
  }

  /** The price the side's order is placed at. */
  function OrderPrice(p: string, side: OrderBookType, cx: Context): real {
    if side == Bid then BidPrice(p, cx) else AskPrice(p, cx)
  }

  /** The standard order amount of the product's first currency. */
  function OrderSize(p: string, cx: Context): real
    requires |CsvReader.Tokens(p, '/')| >= 1
  {
    Balance(cx.amounts, CsvReader.Base(p))
  }

  /** Buy when the forecast is above the reference price and the lowest ask is positive and below the forecast. */
  predicate WantsBid(p: string, cx: Context) {
    Balance(cx.outlook.prediction, p) > Balance(cx.outlook.prices.avg, p) && BidPrice(p, cx) > 0.0 && BidPrice(p, cx) < Balance(cx.outlook.prediction, p)
  }

  /** No price at all is known for the product. */
  predicate Quiet(p: string, cx: Context) {
    Balance(cx.outlook.prices.minAsk, p) == 0.0 && Balance(cx.outlook.prices.maxBid, p) == 0.0
  }

  /** Sell when prices are known, the forecast is below 99.5% of the reference price, and the reference price is above the forecast. */
  predicate WantsAsk(p: string, cx: Context) {
    !Quiet(p, cx) && Balance(cx.outlook.prediction, p) < AskMargin * Balance(cx.outlook.prices.avg, p) && AskPrice(p, cx) > Balance(cx.outlook.prediction, p)
  }

  /** The order pushed and the amount blocked in currency `c`; a negative amount throws, so nothing is blocked. */
  function Admitted(d: Desk, o: OrderBookEntry, c: string, a: real): Desk {
    Desk(d.tick + [o], if a >= 0.0 then Blocked(d.ledger, c, a) else d.ledger)
  }

  /**
   * The `try` block of both placement loops: an order that was read back
   * is pushed, with `a` of currency `c` blocked, when the free pool covers it.
   */
  function Submitted(d: Desk, order: Option<OrderBookEntry>, c: string, a: real): Desk
    requires order.Some? ==> CsvReader.IsPair(order.value.product)
  {
    match order
    case None => d
    case Some(o) => if CanFulfillOrder(d.ledger.standard, o) then Admitted(d, o, c, a) else d
  }

  /** `placeBotBids` for one product. */
  function BidStep(d: Desk, p: string, cx: Context): Desk
    requires CsvReader.IsPair(p)
  {
    if !WantsBid(p, cx) then d
    else Submitted(d, BotOrder(p, Bid, BidPrice(p, cx), OrderSize(p, cx), cx), CsvReader.Quote(p), Notional(OrderSize(p, cx), BidPrice(p, cx)))
  }

  /** `placeBotAsks` for one product. */
  function AskStep(d: Desk, p: string, cx: Context): Desk
    requires CsvReader.IsPair(p)
  {
    if !WantsAsk(p, cx) then d
    else Submitted(d, BotOrder(p, Ask, AskPrice(p, cx), OrderSize(p, cx), cx), CsvReader.Base(p), OrderSize(p, cx))
  }

  /** One product of the bid or the ask placement. */
  function PlaceStep(d: Desk, p: string, side: OrderBookType, cx: Context): Desk
    requires CsvReader.IsPair(p) && (side == Bid || side == Ask)
  {
    if side == Bid then BidStep(d, p, cx) else AskStep(d, p, cx)
  }

  /** Whether the side's rule wants an order for the product. */
  predicate Wants(p: string, side: OrderBookType, cx: Context) {
    if side == Bid then WantsBid(p, cx) else WantsAsk(p, cx)
  }

  /** The placement loop over the products from position `i`. */
  function PlacedFrom(d: Desk, products: seq<string>, i: nat, side: OrderBookType, cx: Context): Desk
    requires i <= |products| && AllPairs(products) && (side == Bid || side == Ask)
    decreases |products| - i
  {
    if i == |products| then d else PlacedFrom(PlaceStep(d, products[i], side, cx), products, i + 1, side, cx)
  }

  /** A new order of the participant: of the side, at the tick, for the product, with its forecast rule met. */
  predicate Placement(o: OrderBookEntry, p: string, side: OrderBookType, cx: Context) {
    o.username == BotUser && o.orderType == side && o.timestamp == cx.time && o.product == p
    && o.orderStatus == InitialStatus && Wants(p, side, cx)
  }

  /**
   * A placement for the product that carries the side's price and the
   * standard size whenever those figures read back exactly.
   */
  predicate PlacementOf(o: OrderBookEntry, p: string, side: OrderBookType, cx: Context)
    requires |CsvReader.Tokens(p, '/')| >= 1
  {
    && Placement(o, p, side, cx)
    && (ReadsBack(cx.fmt, OrderPrice(p, side, cx), OrderSize(p, cx)) ==>
          o.price == OrderPrice(p, side, cx) && o.amount == OrderSize(p, cx))
  }

  /**
   * One product: either nothing changes, or exactly one order is appended,
   * that order is a placement the free pool could afford, and when its
   * figures were read back exactly it is at the side's price for the
   * standard size and the pools are the old ones with its reserve blocked.
   * An order is appended exactly when the rule wants one, its figures
   * parse and the free pool covers it.
   */
  lemma PlaceStepSpec(d: Desk, p: string, side: OrderBookType, cx: Context)
    requires CsvReader.IsPair(p) && (side == Bid || side == Ask)
    ensures var r := PlaceStep(d, p, side, cx);
      || r == d
      || (&& |r.tick| == |d.tick| + 1 && r.tick[..|d.tick|] == d.tick
          && PlacementOf(r.tick[|d.tick|], p, side, cx)
          && CanFulfillOrder(d.ledger.standard, r.tick[|d.tick|])
          && (ReadsBack(cx.fmt, OrderPrice(p, side, cx), OrderSize(p, cx)) && Reserve(r.tick[|d.tick|]).1 >= 0.0 ==>
                r.ledger == Blocked(d.ledger, Reserve(r.tick[|d.tick|]).0, Reserve(r.tick[|d.tick|]).1)))
    ensures var o := BotOrder(p, side, OrderPrice(p, side, cx), OrderSize(p, cx), cx);
      |PlaceStep(d, p, side, cx).tick| == |d.tick| + 1 <==>
        Wants(p, side, cx) && o.Some? && CanFulfillOrder(d.ledger.standard, o.value)
    ensures !Wants(p, side, cx) ==> PlaceStep(d, p, side, cx) == d
  {
    var r := PlaceStep(d, p, side, cx);
    var price := OrderPrice(p, side, cx);
    var placed := BotOrder(p, side, price, OrderSize(p, cx), cx);
    if Wants(p, side, cx) && placed.Some? && CanFulfillOrder(d.ledger.standard, placed.value) {
      var o := placed.value;
      var c := if side == Bid then CsvReader.Quote(p) else CsvReader.Base(p);
      var a := if side == Bid then Notional(OrderSize(p, cx), BidPrice(p, cx)) else OrderSize(p, cx);
      assert r == Admitted(d, o, c, a);
      assert r.tick[|d.tick|] == o && r.tick[..|d.tick|] == d.tick;
      assert Placement(o, p, side, cx);
      assert ReadsBack(cx.fmt, price, OrderSize(p, cx)) ==> o.price == price && o.amount == OrderSize(p, cx);
      if ReadsBack(cx.fmt, price, OrderSize(p, cx)) {
        assert o.price == price && o.amount == OrderSize(p, cx);
        if side == Bid {
          assert Value(o) == o.amount * o.price == OrderSize(p, cx) * BidPrice(p, cx);
          assert Notional(OrderSize(p, cx), BidPrice(p, cx)) == OrderSize(p, cx) * BidPrice(p, cx);
        }
        assert Reserve(o) == (c, a);
      }
    } else {
      assert r == d;
    }
  }

  /**
   * An admitted order whose figures are read back exactly has its reserve
   * covered: the free pool of the reserved currency falls by the reserve,
   * the reserved pool rises by it, and the holding of every currency stays.
   */
  lemma PlaceStepKeepsHoldings(d: Desk, p: string, side: OrderBookType, cx: Context, c: string)
    requires CsvReader.IsPair(p) && (side == Bid || side == Ask)
    requires ReadsBack(cx.fmt, OrderPrice(p, side, cx), OrderSize(p, cx))
    ensures Holding(PlaceStep(d, p, side, cx).ledger, c) == Holding(d.ledger, c)
  {
    PlaceStepSpec(d, p, side, cx);
    var r := PlaceStep(d, p, side, cx);
    if r != d {
      var o := r.tick[|d.tick|];
      var (rc, ra) := Reserve(o);
      if ra >= 0.0 {
        FulfillableOrderIsWithdrawable(d.ledger.standard, o);
        BlockMovesFunds(d.ledger, rc, ra);
      } else {
        assert r.ledger == d.ledger;
      }
    }
  }

  /**
   * The whole placement loop: the tick keeps its orders and gains no more
   * new orders than there are listings left, each a placement for a listed
   * product with the side's figures when those read back exactly; and when
   * every listed product's figures read back exactly no holding changes.
   */
  lemma {:induction false} PlacedFromSpec(d: Desk, products: seq<string>, i: nat, side: OrderBookType, cx: Context, c: string)
    requires i <= |products| && AllPairs(products) && (side == Bid || side == Ask)
    ensures var r := PlacedFrom(d, products, i, side, cx);
      && |r.tick| >= |d.tick| && r.tick[..|d.tick|] == d.tick
      && |r.tick| - |d.tick| <= |products| - i
      && (forall k :: |d.tick| <= k < |r.tick| ==>
            exists j :: i <= j < |products| && PlacementOf(r.tick[k], products[j], side, cx))
      && ((forall j :: i <= j < |products| ==> ReadsBack(cx.fmt, OrderPrice(products[j], side, cx), OrderSize(products[j], cx)))
            ==> Holding(r.ledger, c) == Holding(d.ledger, c))
    decreases |products| - i
  {
    if i < |products| {
      var d' := PlaceStep(d, products[i], side, cx);
      PlaceStepSpec(d, products[i], side, cx);
      if ReadsBack(cx.fmt, OrderPrice(products[i], side, cx), OrderSize(products[i], cx)) {
        PlaceStepKeepsHoldings(d, products[i], side, cx, c);
      }
      PlacedFromSpec(d', products, i + 1, side, cx, c);
      var r := PlacedFrom(d, products, i, side, cx);
      assert r == PlacedFrom(d', products, i + 1, side, cx);
      assert r.tick[..|d'.tick|][..|d.tick|] == r.tick[..|d.tick|];
      forall k | |d.tick| <= k < |r.tick|
        ensures exists j :: i <= j < |products| && PlacementOf(r.tick[k], products[j], side, cx)
      {
        if k < |d'.tick| {
          assert r.tick[k] == d'.tick[k];
          assert PlacementOf(r.tick[k], products[i], side, cx);
        } else {
          var j :| i + 1 <= j < |products| && PlacementOf(r.tick[k], products[j], side, cx);
        }
      }
    }
  }

  /** An ask for a product without any known price is never placed. */
  lemma QuietProductGetsNoAsk(d: Desk, p: string, cx: Context)
    requires CsvReader.IsPair(p) && Quiet(p, cx)
    ensures AskStep(d, p, cx) == d
  {
  }

  /**
   * A reserve and its release agree: a placed order, once carried over and
   * withdrawn, releases exactly what its admission blocked.
   */
  lemma CarriedOrderReleasesItsReserve(o: OrderBookEntry, ol: Outlook)
    requires o.username == BotUser && CsvReader.IsPair(o.product)
    requires (o.orderType == Ask && CancelsAsk(o, ol)) || (o.orderType == Bid && CancelsBid(o, ol))
    ensures Release(o.(orderStatus := CarryoverStatus), ol) == Some(Reserve(o))
  {
    var carried := o.(orderStatus := CarryoverStatus);
    assert Carried(carried);
    assert Value(carried) == Value(o);
  }

  // ---------------------------------------------------------------------
  // Carryover
  // ---------------------------------------------------------------------

  /** The unresolved orders marked as carried over. */
  function CarriedOver(active: seq<OrderBookEntry>): seq<OrderBookEntry> {
    seq(|active|, k requires 0 <= k < |active| => active[k].(orderStatus := CarryoverStatus))
  }

  /**
   * Carrying over changes the status only, and an unresolved order of the
   * participant becomes a carried order the next tick's cancellation pass
   * looks at; its timestamp stays the old one, so the next tick's matching
   * does not pick it up.
   */
  lemma CarriedOverSpec(active: seq<OrderBookEntry>, next: string)
    ensures |CarriedOver(active)| == |active|
    ensures forall k :: 0 <= k < |active| ==>
      CarriedOver(active)[k].orderStatus == CarryoverStatus
      && CarriedOver(active)[k].(orderStatus := active[k].orderStatus) == active[k]
      && (active[k].username == BotUser ==> Carried(CarriedOver(active)[k]))
  {
  }

  /**
   * Orders carried from another tick add nothing to what the next tick's
   * matching picks up.
   */
  lemma CarriedOrdersAreNotMatched(tick: seq<OrderBookEntry>, active: seq<OrderBookEntry>, next: string, side: OrderBookType, product: string)
    requires forall k :: 0 <= k < |active| ==> active[k].timestamp != next
    ensures OrdersWhere(tick + CarriedOver(active), side, product, next) == OrdersWhere(tick, side, product, next)
  {
    OrdersWhereAppend(tick, CarriedOver(active), side, product, next);
    OtherTicksAreNotMatched(CarriedOver(active), side, product, next);
  }

  /** Orders stamped with another tick are not matched in this one. */
  lemma {:induction false} OtherTicksAreNotMatched(orders: seq<OrderBookEntry>, side: OrderBookType, product: string, next: string)
    requires forall k :: 0 <= k < |orders| ==> orders[k].timestamp != next
    ensures OrdersWhere(orders, side, product, next) == []
    decreases |orders|
  {
    if |orders| > 0 {
      OtherTicksAreNotMatched(orders[..|orders| - 1], side, product, next);
    }
  }

  // ---------------------------------------------------------------------
  // A tick of the participant's actions
  // ---------------------------------------------------------------------

  /** The state the participant's actions change: the schedule, the prices and the pools. */
  datatype BotState = BotState(orders: Schedule, prices: Prices, ledger: Ledger)

  /**
   * The trading part of a tick: carried orders may be withdrawn (a throw
   * ends the tick's actions), then asks and then bids are placed.
   */
  function Trade(s: BotState, products: seq<string>, cx: Context): (BotState, bool)
    requires AllPairs(products) && BotOrdersArePairs(TickOrders(s.orders, cx.time))
  {
    var swept := CancelFrom(TickOrders(s.orders, cx.time), 0, s.ledger, cx.outlook);
    if !swept.ok then (BotState(s.orders[cx.time := swept.tick], s.prices, swept.ledger), false)
    else
      var asked := PlacedFrom(Desk(swept.tick, swept.ledger), products, 0, Ask, cx);
      var bid := PlacedFrom(asked, products, 0, Bid, cx);
      (BotState(s.orders[cx.time := bid.tick], s.prices, bid.ledger), true)
  }

  /**
   * `processBotActions` on values: the prices are surveyed, and on every
   * tick but the first the participant trades.
   */
  function BotActions(s: BotState, products: seq<string>, first: string, prediction: map<string, real>,
                      amounts: map<string, real>, time: string, fmt: Formatting): (BotState, bool)
    requires AllPairs(products) && BotOrdersArePairs(TickOrders(s.orders, time))
  {
    var surveyed := s.(prices := MarketPrices(s.prices, TickOrders(s.orders, time), products));
    if time == first then (surveyed, true)
    else Trade(surveyed, products, Context(Outlook(surveyed.prices, prediction), amounts, time, fmt))
  }

  /**
   * Trading keeps the prices and every other tick's orders, and the
   * current tick keeps at least its orders; when it does not throw, the
   * tick's orders are the cancellation pass's result followed only by new
   * placements of the participant.
   */
  lemma TradeFrame(s: BotState, products: seq<string>, cx: Context)
    requires AllPairs(products) && BotOrdersArePairs(TickOrders(s.orders, cx.time))
    ensures var (r, ok) := Trade(s, products, cx);
      var tick := TickOrders(s.orders, cx.time);
      && r.prices == s.prices
      && (forall t :: t != cx.time ==> TickOrders(r.orders, t) == TickOrders(s.orders, t))
      && |TickOrders(r.orders, cx.time)| >= |tick|
      && (ok ==> forall k :: 0 <= k < |tick| ==> TickOrders(r.orders, cx.time)[k] == Cancelled(tick[k], cx.outlook))
      && (ok ==> forall k :: |tick| <= k < |TickOrders(r.orders, cx.time)| ==>
            exists j :: 0 <= j < |products| && TickOrders(r.orders, cx.time)[k].username == BotUser
              && TickOrders(r.orders, cx.time)[k].timestamp == cx.time
              && TickOrders(r.orders, cx.time)[k].product == products[j])
  {
    var tick := TickOrders(s.orders, cx.time);
    var swept := CancelFrom(tick, 0, s.ledger, cx.outlook);
    CancelFromOrders(tick, 0, s.ledger, cx.outlook);
    CancelFromRunsToEnd(tick, 0, s.ledger, cx.outlook);
    if swept.ok {
      var asked := PlacedFrom(Desk(swept.tick, swept.ledger), products, 0, Ask, cx);
      var bid := PlacedFrom(asked, products, 0, Bid, cx);
      PlacedFromSpec(Desk(swept.tick, swept.ledger), products, 0, Ask, cx, "");
      PlacedFromSpec(asked, products, 0, Bid, cx, "");
      assert TickOrders(Trade(s, products, cx).0.orders, cx.time) == bid.tick;
      assert bid.tick[..|asked.tick|][..|tick|] == bid.tick[..|tick|];
      forall k | 0 <= k < |tick|
        ensures bid.tick[k] == Cancelled(tick[k], cx.outlook)
      {
        assert bid.tick[k] == bid.tick[..|tick|][k];
      }
      forall k | |tick| <= k < |bid.tick|
        ensures exists j :: (0 <= j < |products| && bid.tick[k].username == BotUser
          && bid.tick[k].timestamp == cx.time && bid.tick[k].product == products[j])
      {
        if k < |asked.tick| {
          assert bid.tick[k] == asked.tick[k];
          var j :| 0 <= j < |products| && PlacementOf(asked.tick[k], products[j], Ask, cx);
        } else {
          var j :| 0 <= j < |products| && PlacementOf(bid.tick[k], products[j], Bid, cx);
        }
      }
    }
  }

  /** The first tick only surveys prices: orders and pools stay as they are. */
  lemma FirstTickOnlySurveys(s: BotState, products: seq<string>, first: string, prediction: map<string, real>,
                             amounts: map<string, real>, fmt: Formatting)
    requires AllPairs(products) && BotOrdersArePairs(TickOrders(s.orders, first))
    ensures var (r, ok) := BotActions(s, products, first, prediction, amounts, first, fmt);
      && ok && r.orders == s.orders && r.ledger == s.ledger
      && r.prices == MarketPrices(s.prices, TickOrders(s.orders, first), products)
  {
  }

  // ---------------------------------------------------------------------
  // The participant
  // ---------------------------------------------------------------------

  /** The participant: its pools, the book it trades on, the schedule and its price maps. */
  class MerkelBot {
    const botAssets: Assets
    const fullOrderBook: OrderBook
    var orders: Schedule
    var maxBidPrices: map<string, real>
    var minAskPrices: map<string, real>
    var avgCurrentPrices: map<string, real>
    var pricePrediction: map<string, real>
    var allTimestamps: seq<string>
    var allProducts: seq<string>
    var currentTime: string

    /** The pools are three distinct wallets and every product names two currencies. */
    ghost predicate Valid()
      reads this, botAssets
    {
      botAssets.Valid() && AllPairs(allProducts)
    }

    /** The price maps. */
    function CurrentPrices(): Prices
      reads this
    {
      Prices(maxBidPrices, minAskPrices, avgCurrentPrices)
    }

    /** The schedule, the prices and the pools. */
    function State(): BotState
      reads this, botAssets, botAssets.standardWallet, botAssets.reservedWallet, botAssets.totalAssets
    {
      BotState(orders, CurrentPrices(), botAssets.View())
    }

    /** The prices and forecasts at the current tick. */
    function CurrentOutlook(): Outlook
      reads this
    {
      Outlook(CurrentPrices(), pricePrediction)
    }

    /** What the placement rules read at the current tick. */
    function RuleContext(fmt: Formatting): Context
      reads this, botAssets
    {
      Context(CurrentOutlook(), botAssets.standardOrderAmount, currentTime, fmt)
    }

    /** The settings a tick's actions do not change. */
    twostate predicate Kept()
      reads this
    {
      allProducts == old(allProducts) && allTimestamps == old(allTimestamps)
      && currentTime == old(currentTime) && pricePrediction == old(pricePrediction)
    }

    constructor()
      ensures Valid() && orders == map[] && allTimestamps == [] && allProducts == []
      ensures CurrentPrices() == Prices(map[], map[], map[]) && pricePrediction == map[]
      ensures botAssets.View() == Ledger(map[], map[], map[]) && fullOrderBook.activeUserOrders == []
    {
      botAssets := new Assets();
      fullOrderBook := new OrderBook();
      orders := map[];
      maxBidPrices := map[];
      minAskPrices := map[];
      avgCurrentPrices := map[];
      pricePrediction := map[];
      allTimestamps := [];
      allProducts := [];
      currentTime := "";
    }

    /** `getLiveBidsForProduct`. */
    method GetLiveBidsForProduct(product: string) returns (ordersSub: seq<OrderBookEntry>)
      ensures ordersSub == LiveOrders(TickOrders(orders, currentTime), product, Bid)
    {
      var tick := TickOrders(orders, currentTime);
      ordersSub := [];
      for k := 0 to |tick|
        invariant ordersSub == LiveOrders(tick[..k], product, Bid)
      {
        assert tick[..k + 1][..k] == tick[..k];
        if tick[k].product == product && tick[k].orderType == Bid {
          ordersSub := ordersSub + [tick[k]];
        }
      }
      assert tick[..|tick|] == tick;
    }

    /** `getLiveAsksForProduct`. */
    method GetLiveAsksForProduct(product: string) returns (ordersSub: seq<OrderBookEntry>)
      ensures ordersSub == LiveOrders(TickOrders(orders, currentTime), product, Ask)
    {
      var tick := TickOrders(orders, currentTime);
      ordersSub := [];
      for k := 0 to |tick|
        invariant ordersSub == LiveOrders(tick[..k], product, Ask)
      {
        assert tick[..k + 1][..k] == tick[..k];
        if tick[k].product == product && tick[k].orderType == Ask {
          ordersSub := ordersSub + [tick[k]];
        }
      }
      assert tick[..|tick|] == tick;
    }

    /** `getMarketPrices`. */
    method GetMarketPrices()
      requires Valid()
      modifies this
      ensures Valid() && Kept() && orders == old(orders)
      ensures CurrentPrices() == MarketPrices(old(CurrentPrices()), TickOrders(orders, currentTime), allProducts)
    {
      var maxBid, minAsk, avg := maxBidPrices, minAskPrices, avgCurrentPrices;
      ghost var q0 := CurrentPrices();
      ghost var tick := TickOrders(orders, currentTime);
      for i := 0 to |allProducts|
        modifies {}
        invariant Prices(maxBid, minAsk, avg) == MarketPrices(q0, tick, allProducts[..i])
      {
        ghost var q := Prices(maxBid, minAsk, avg);
        var p := allProducts[i];
        MarketPricesStep(q0, tick, allProducts, i);
        var productBidOrders := GetLiveBidsForProduct(p);
        var productAskOrders := GetLiveAsksForProduct(p);
        if |productBidOrders| > 0 {
          var best := SurveyBest(productBidOrders, Bid);
          maxBid := maxBid[p := best];
        }
        if |productAskOrders| > 0 {
          var best := SurveyBest(productAskOrders, Ask);
          minAsk := minAsk[p := best];
        }
        avg := avg[p := ReferencePrice(Balance(minAsk, p), Balance(maxBid, p))];
        assert Prices(maxBid, minAsk, avg) == QuoteProduct(q, tick, p);
      }
      assert allProducts[..|allProducts|] == allProducts;
      maxBidPrices, minAskPrices, avgCurrentPrices := maxBid, minAsk, avg;
    }

    /** The survey loop of `getMarketPrices`, from the first order's price. */
    method SurveyBest(live: seq<OrderBookEntry>, side: OrderBookType) returns (best: real)
      requires |live| > 0
      ensures best == BestPrice(live, side, live[0].price)
    {
      best := live[0].price;
      for k := 0 to |live|
        invariant best == BestPrice(live[..k], side, live[0].price)
      {
        assert live[..k + 1][..k] == live[..k];
        if live[k].orderType == side && Beats(live[k].price, best, side) {
          best := live[k].price;
        }
      }
      assert live[..|live|] == live;
    }

    /** `cancelBotOrders`; `ok` is false when an unblock threw. */
    method CancelBotOrders() returns (ok: bool)
      requires Valid() && BotOrdersArePairs(TickOrders(orders, currentTime))
      modifies this, botAssets.standardWallet, botAssets.reservedWallet
      ensures Valid() && Kept() && CurrentPrices() == old(CurrentPrices())
      ensures var r := CancelFrom(TickOrders(old(orders), currentTime), 0, old(botAssets.View()), old(CurrentOutlook()));
        && orders == old(orders)[currentTime := r.tick]
        && botAssets.View() == r.ledger
        && ok == r.ok
    {
      ghost var ol := CurrentOutlook();
      var tick := TickOrders(orders, currentTime);
      ok := true;
      var i := 0;
      while i < |tick|
        invariant 0 <= i <= |tick| && BotOrdersArePairs(tick) && botAssets.Valid() && ok
        invariant CancelFrom(TickOrders(orders, currentTime), 0, old(botAssets.View()), ol) == CancelFrom(tick, i, botAssets.View(), ol)
        modifies botAssets.standardWallet, botAssets.reservedWallet
        decreases |tick| - i
      {
        var order := tick[i];
        if order.orderStatus == CarryoverStatus && order.username == BotUser {
          if order.orderType == Ask {
            if order.price < Balance(maxBidPrices, order.product) || order.price < Balance(pricePrediction, order.product) {
              tick := tick[i := order.(orderStatus := CancelledStatus)];
              ok := botAssets.UnblockAmount(CsvReader.Base(order.product), order.amount);
              if !ok {
                break;
              }
            }
          }
          if order.orderType == Bid {
            if order.price > Balance(minAskPrices, order.product) || order.price > Balance(pricePrediction, order.product) {
              tick := tick[i := order.(orderStatus := CancelledStatus)];
              ok := botAssets.UnblockAmount(CsvReader.Quote(order.product), Value(order));
              if !ok {
                break;
              }
            }
          }
        }
        i := i + 1;
      }
      orders := orders[currentTime := tick];
    }

    /** `placeBotAsks`; a throw inside a product's `try` is caught and the loop goes on. */
    method PlaceBotAsks(fmt: Formatting)
      requires Valid()
      modifies this, botAssets.standardWallet, botAssets.reservedWallet
      ensures Valid() && Kept() && CurrentPrices() == old(CurrentPrices())
      ensures var r := PlacedFrom(Desk(TickOrders(old(orders), currentTime), old(botAssets.View())), allProducts, 0, Ask, old(RuleContext(fmt)));
        && orders == old(orders)[currentTime := r.tick]
        && botAssets.View() == r.ledger
    {
      ghost var cx := RuleContext(fmt);
      var tick := TickOrders(orders, currentTime);
      ghost var placed := PlacedFrom(Desk(tick, botAssets.View()), allProducts, 0, Ask, cx);
      for i := 0 to |allProducts|
        invariant botAssets.Valid()
        invariant PlacedFrom(Desk(tick, botAssets.View()), allProducts, i, Ask, cx) == placed
        modifies botAssets.standardWallet, botAssets.reservedWallet
      {
        ghost var d := Desk(tick, botAssets.View());
        var p := allProducts[i];
        if Balance(minAskPrices, p) == 0.0 && Balance(maxBidPrices, p) == 0.0 {
          assert AskStep(d, p, cx) == d;
          continue;
        }
        var askPrice := Balance(avgCurrentPrices, p);
        var sellAmount := Balance(botAssets.standardOrderAmount, CsvReader.Base(p));
        if Balance(pricePrediction, p) < AskMargin * Balance(avgCurrentPrices, p) && askPrice > Balance(pricePrediction, p) {
          tick := SubmitOrder(tick, p, Ask, askPrice, sellAmount, CsvReader.Base(p), sellAmount, fmt);
        }
        assert Desk(tick, botAssets.View()) == AskStep(d, p, cx);
      }
      orders := orders[currentTime := tick];
    }

    /** `placeBotBids`; a throw inside a product's `try` is caught and the loop goes on. */
    method PlaceBotBids(fmt: Formatting)
      requires Valid()
      modifies this, botAssets.standardWallet, botAssets.reservedWallet
      ensures Valid() && Kept() && CurrentPrices() == old(CurrentPrices())
      ensures var r := PlacedFrom(Desk(TickOrders(old(orders), currentTime), old(botAssets.View())), allProducts, 0, Bid, old(RuleContext(fmt)));
        && orders == old(orders)[currentTime := r.tick]
        && botAssets.View() == r.ledger
    {
      ghost var cx := RuleContext(fmt);
      var tick := TickOrders(orders, currentTime);
      ghost var placed := PlacedFrom(Desk(tick, botAssets.View()), allProducts, 0, Bid, cx);
      for i := 0 to |allProducts|
        invariant botAssets.Valid()
        invariant PlacedFrom(Desk(tick, botAssets.View()), allProducts, i, Bid, cx) == placed
        modifies botAssets.standardWallet, botAssets.reservedWallet
      {
        ghost var d := Desk(tick, botAssets.View());
        var p := allProducts[i];
        var bidPrice := Balance(minAskPrices, p);
        var buyAmount := Balance(botAssets.standardOrderAmount, CsvReader.Base(p));
        var sellAmount := Notional(buyAmount, bidPrice);
        if Balance(pricePrediction, p) > Balance(avgCurrentPrices, p) && bidPrice > 0.0 && bidPrice < Balance(pricePrediction, p) {
          tick := SubmitOrder(tick, p, Bid, bidPrice, buyAmount, CsvReader.Quote(p), sellAmount, fmt);
        }
        assert Desk(tick, botAssets.View()) == BidStep(d, p, cx);
      }
      orders := orders[currentTime := tick];
    }

    /**
     * The `try` block of `placeBotBids` and `placeBotAsks`: the order's
     * figures are written and read back, and when that succeeds and the
     * free pool covers the order it is pushed and `reserve` of `currency`
     * is blocked; a throw skips the rest of the block.
     */
    method SubmitOrder(tick: seq<OrderBookEntry>, p: string, side: OrderBookType, price: real, amount: real,
                       currency: string, reserve: real, fmt: Formatting)
      returns (placed: seq<OrderBookEntry>)
      requires botAssets.Valid() && CsvReader.IsPair(p)
      modifies botAssets.standardWallet, botAssets.reservedWallet
      ensures Desk(placed, botAssets.View())
        == Submitted(Desk(tick, old(botAssets.View())), BotOrder(p, side, price, amount, RuleContext(fmt)), currency, reserve)
    {
      placed := tick;
      var obe := CsvReader.FieldsToOBE(fmt.priceText(price), fmt.amountText(amount), currentTime, p, side, fmt.stod);
      if obe.Success? {
        var order := obe.value.(username := BotUser);
        if CanFulfillOrder(botAssets.standardWallet.currencies, order) {
          placed := placed + [order];
          var blocked := botAssets.BlockAmount(currency, reserve);
        }
      }
    }

    /**
     * The carryover step of `init`: every unresolved order is marked carried
     * and appended to the next tick's orders, then the list is emptied.
     */
    method CarryOver(next: string)
      requires Valid()
      modifies this, fullOrderBook
      ensures Valid() && Kept() && CurrentPrices() == old(CurrentPrices())
      ensures orders == old(orders)[next := TickOrders(old(orders), next) + CarriedOver(old(fullOrderBook.activeUserOrders))]
      ensures fullOrderBook.activeUserOrders == []
    {
      var active := fullOrderBook.activeUserOrders;
      var list := TickOrders(orders, next);
      for k := 0 to |active|
        invariant list == TickOrders(orders, next) + CarriedOver(active[..k])
      {
        assert CarriedOver(active[..k + 1]) == CarriedOver(active[..k]) + [active[k].(orderStatus := CarryoverStatus)];
        list := list + [active[k].(orderStatus := CarryoverStatus)];
      }
      assert active[..|active|] == active;
      orders := orders[next := list];
      fullOrderBook.activeUserOrders := [];
    }

    /**
     * `processBotActions`, without the forecast update (the forecasts are
     * an input) and the log; `ok` is false when the cancellation pass threw.
     */
    method ProcessBotActions(fmt: Formatting) returns (ok: bool)
      requires Valid() && |allTimestamps| > 0 && BotOrdersArePairs(TickOrders(orders, currentTime))
      modifies this, botAssets.standardWallet, botAssets.reservedWallet
      ensures Valid() && Kept()
      ensures (State(), ok) == BotActions(old(State()), allProducts, allTimestamps[0], pricePrediction,
                                          botAssets.standardOrderAmount, currentTime, fmt)
    {
      GetMarketPrices();
      ok := true;
      if currentTime != allTimestamps[0] {
        ok := TradeTick(fmt);
      }
    }

    /** The trading part of `processBotActions`: cancellation, then asks, then bids. */
    method TradeTick(fmt: Formatting) returns (ok: bool)
      requires Valid() && BotOrdersArePairs(TickOrders(orders, currentTime))
      modifies this, botAssets.standardWallet, botAssets.reservedWallet
      ensures Valid() && Kept()
      ensures (State(), ok) == Trade(old(State()), allProducts, old(RuleContext(fmt)))
    {
      ghost var s0 := State();
      ghost var cx := RuleContext(fmt);
      ghost var swept := CancelFrom(TickOrders(s0.orders, currentTime), 0, s0.ledger, cx.outlook);
      ok := CancelBotOrders();
      if !ok {
        return;
      }
      ghost var asked := PlacedFrom(Desk(swept.tick, swept.ledger), allProducts, 0, Ask, cx);
      PlaceBotAsks(fmt);
      assert orders == s0.orders[currentTime := asked.tick] && botAssets.View() == asked.ledger;
      assert RuleContext(fmt) == cx;
      PlaceBotBids(fmt);
      ghost var bid := PlacedFrom(asked, allProducts, 0, Bid, cx);
      assert orders == s0.orders[currentTime := bid.tick] && botAssets.View() == bid.ledger;
    }
  }
}
