/**
 * The matching engine of one tick: the order filter, the price sort, and
 * the nested ask/bid pass that turns crossing orders into sale records.
 * The pass is specified by the tail-recursive functions `MatchAsk` (one
 * ask against the bid book) and `MatchFrom` (every ask in turn); the
 * method `OrderBook.MatchAsksToBids` is proved equal to them, and the
 * lemmas state conservation, bounds and the absence of crossed remainders
 * about the functions.
 */
module MatchingEngine {
  import opened Wrappers
  import opened OrderEntries

  // ---------------------------------------------------------------------
  // The filter

  /** The test `getOrders` applies to each entry. */
  predicate Selected(e: OrderBookEntry, orderType: OrderBookType, product: string, timestamp: string) {
    e.orderType == orderType && e.product == product && e.timestamp == timestamp && e.orderStatus != CancelledStatus
  }

  /** The entries of `orders` that pass the test, in their input order. */
  function OrdersWhere(orders: seq<OrderBookEntry>, orderType: OrderBookType, product: string, timestamp: string): seq<OrderBookEntry>
    decreases |orders|
  {
    if |orders| == 0 then []
    else
      OrdersWhere(orders[..|orders| - 1], orderType, product, timestamp)
      + (if Selected(orders[|orders| - 1], orderType, product, timestamp) then [orders[|orders| - 1]] else [])
  }

  /** Filtering a concatenation filters each part in turn: the filter keeps input order. */
  lemma {:induction false} OrdersWhereAppend(a: seq<OrderBookEntry>, b: seq<OrderBookEntry>, orderType: OrderBookType, product: string, timestamp: string)
    ensures OrdersWhere(a + b, orderType, product, timestamp)
      == OrdersWhere(a, orderType, product, timestamp) + OrdersWhere(b, orderType, product, timestamp)
    decreases |b|
  {
    if |b| == 0 {
      assert a + b == a;
    } else {
      var b' := b[..|b| - 1];
      assert (a + b)[..|a + b| - 1] == a + b';
      assert (a + b)[|a + b| - 1] == b[|b| - 1];
      OrdersWhereAppend(a, b', orderType, product, timestamp);
    }
  }

  /** An entry is kept exactly when it is in the input and passes the test. */
  lemma {:induction false} OrdersWhereMembers(orders: seq<OrderBookEntry>, orderType: OrderBookType, product: string, timestamp: string)
    ensures forall e :: e in OrdersWhere(orders, orderType, product, timestamp) <==> e in orders && Selected(e, orderType, product, timestamp)
    decreases |orders|
  {
    if |orders| > 0 {
      var init := orders[..|orders| - 1];
      OrdersWhereMembers(init, orderType, product, timestamp);
      assert orders == init + [orders[|orders| - 1]];
    }
  }

  /**
   * A carried-over order keeps the timestamp of the tick it was placed in,
   * so at any later tick the filter drops it: it is never matched again.
   */
  lemma CarriedOrderIsNeverMatched(orders: seq<OrderBookEntry>, e: OrderBookEntry, orderType: OrderBookType, product: string, timestamp: string)
    requires e.timestamp != timestamp
    ensures e !in OrdersWhere(orders, orderType, product, timestamp)
  {
    OrdersWhereMembers(orders, orderType, product, timestamp);
  }

  /** A cancelled order is never matched. */
  lemma CancelledOrderIsNeverMatched(orders: seq<OrderBookEntry>, e: OrderBookEntry, orderType: OrderBookType, product: string, timestamp: string)
    requires e.orderStatus == CancelledStatus
    ensures e !in OrdersWhere(orders, orderType, product, timestamp)
  {
    OrdersWhereMembers(orders, orderType, product, timestamp);
  }

  /** `getOrders`: one pass over the list, copying the entries that pass the test. */
  method GetOrders(ordersList: seq<OrderBookEntry>, orderType: OrderBookType, product: string, timestamp: string)
    returns (ordersSub: seq<OrderBookEntry>)
    ensures ordersSub == OrdersWhere(ordersList, orderType, product, timestamp)
  {
    ordersSub := [];
    for i := 0 to |ordersList|
      invariant ordersSub == OrdersWhere(ordersList[..i], orderType, product, timestamp)
    {
      assert ordersList[..i + 1][..i] == ordersList[..i];
      var e := ordersList[i];
      if e.orderType == orderType && e.product == product && e.timestamp == timestamp && e.orderStatus != CancelledStatus {
        ordersSub := ordersSub + [e];
      }
    }
    assert ordersList[..|ordersList|] == ordersList;
  }

  // ---------------------------------------------------------------------
  // The sort

  /** The comparator a sort is given: `compareByPriceAsc` or `compareByPriceDesc`. */
  predicate Less(a: OrderBookEntry, b: OrderBookEntry, ascending: bool) {
    if ascending then CompareByPriceAsc(a, b) else CompareByPriceDesc(a, b)
  }

  /** What `std::sort` promises: no entry compares less than one before it. */
  predicate SortedByPrice(s: seq<OrderBookEntry>, ascending: bool) {
    forall i, j :: 0 <= i < j < |s| ==> !Less(s[j], s[i], ascending)
  }

  /** Inserts `x` before the first entry that it compares less than. */
  function Insert(x: OrderBookEntry, s: seq<OrderBookEntry>, ascending: bool): seq<OrderBookEntry>
  {
    if |s| == 0 || Less(x, s[0], ascending) then [x] + s
    else [s[0]] + Insert(x, s[1..], ascending)
  }

  /** An insertion sort: one sorted arrangement, the witness that one exists. */
  function InsertionSort(s: seq<OrderBookEntry>, ascending: bool): seq<OrderBookEntry>
  {
    if |s| == 0 then [] else Insert(s[0], InsertionSort(s[1..], ascending), ascending)
  }

  lemma SortedTail(s: seq<OrderBookEntry>, ascending: bool)
    requires |s| > 0 && SortedByPrice(s, ascending)
    ensures SortedByPrice(s[1..], ascending)
  {
    forall i, j | 0 <= i < j < |s| - 1 ensures !Less(s[1..][j], s[1..][i], ascending) {
      assert s[1..][j] == s[j + 1] && s[1..][i] == s[i + 1];
    }
  }

  lemma SortedCons(y: OrderBookEntry, t: seq<OrderBookEntry>, ascending: bool)
    requires SortedByPrice(t, ascending) && forall z | z in t :: !Less(z, y, ascending)
    ensures SortedByPrice([y] + t, ascending)
  {
    var s := [y] + t;
    forall i, j | 0 <= i < j < |s| ensures !Less(s[j], s[i], ascending) {
      assert s[j] == t[j - 1];
      if i == 0 {
        assert t[j - 1] in t;
      } else {
        assert s[i] == t[i - 1];
      }
    }
  }

  lemma {:induction false} InsertSpec(x: OrderBookEntry, s: seq<OrderBookEntry>, ascending: bool)
    requires SortedByPrice(s, ascending)
    ensures multiset(Insert(x, s, ascending)) == multiset(s) + multiset{x}
    ensures SortedByPrice(Insert(x, s, ascending), ascending)
  {
    if |s| == 0 || Less(x, s[0], ascending) {
    } else {
      var rest := Insert(x, s[1..], ascending);
      SortedTail(s, ascending);
      InsertSpec(x, s[1..], ascending);
      assert s == [s[0]] + s[1..];
      forall z | z in rest ensures !Less(z, s[0], ascending) {
        assert z in multiset(rest);
        if z != x {
          assert z in multiset(s[1..]);
          var k :| 0 <= k < |s[1..]| && s[1..][k] == z;
          assert s[k + 1] == z;
        }
      }
      SortedCons(s[0], rest, ascending);
    }
  }

  /** The insertion sort yields a sorted permutation of its input. */
  lemma {:induction false} InsertionSortSpec(s: seq<OrderBookEntry>, ascending: bool)
    ensures multiset(InsertionSort(s, ascending)) == multiset(s)
    ensures SortedByPrice(InsertionSort(s, ascending), ascending)
  {
    if |s| > 0 {
      InsertionSortSpec(s[1..], ascending);
      InsertSpec(s[0], InsertionSort(s[1..], ascending), ascending);
      assert s == [s[0]] + s[1..];
    }
  }

  // ---------------------------------------------------------------------
  // One fill

  /**
   * The outcome of meeting a bid with a positive remainder: the quantity
   * traded, what is left of each side, and whether the ask is exhausted,
   * which ends the inner loop.
   */
  datatype Fill = Fill(quantity: real, askLeft: real, bidLeft: real, askFilled: bool)

  /** The three cases of the inner loop body, in the order the source tests them. */
  function FillOf(askAmount: real, bidAmount: real): Option<Fill> {
    if bidAmount == askAmount then Some(Fill(askAmount, 0.0, 0.0, true))
    else if bidAmount > askAmount then Some(Fill(askAmount, 0.0, bidAmount - askAmount, true))
    else if bidAmount > 0.0 then Some(Fill(bidAmount, askAmount - bidAmount, 0.0, false))
    else None
  }

  /**
   * A fill trades the smaller of the two remainders and takes it off both,
   * so neither goes negative; the ask is exhausted exactly when nothing of
   * it is left. Only a remainder that is not positive trades nothing.
   */
  lemma FillIsMinimum(askAmount: real, bidAmount: real)
    ensures FillOf(askAmount, bidAmount).None? <==> bidAmount < askAmount && bidAmount <= 0.0
    ensures FillOf(askAmount, bidAmount).Some? ==>
      var f := FillOf(askAmount, bidAmount).value;
      && f.askLeft == askAmount - f.quantity
      && f.bidLeft == bidAmount - f.quantity
      && (f.askFilled <==> f.bidLeft >= 0.0 && f.askLeft == 0.0)
    ensures askAmount >= 0.0 && bidAmount > 0.0 ==>
      var f := FillOf(askAmount, bidAmount).value;
      && f.quantity == (if askAmount <= bidAmount then askAmount else bidAmount)
      && f.askLeft >= 0.0 && f.bidLeft >= 0.0
  {
  }

  /**
   * The sale record of a crossing ask and bid, before its amount is set:
   * the ask's price, the bid's surplus over it, and the attribution a
   * participant order on either side gives it.
   */
  function SaleRecord(ask: OrderBookEntry, bid: OrderBookEntry, product: string, timestamp: string): OrderBookEntry {
    var sale := OrderBookEntry(ask.price, 0.0, timestamp, product, AskSale, bid.price - ask.price);
    var sale' := if bid.username == BotUser then sale.(username := BotUser, orderType := BidSale) else sale;
    if ask.username == BotUser then sale'.(username := BotUser, orderType := AskSale) else sale'
  }

  /**
   * Attribution: a sale is the dataset's ask sale unless the participant
   * is on one side; its bid makes it the participant's bid sale, and its
   * ask, which is tested last, makes it the participant's ask sale.
   */
  lemma SaleRecordAttribution(ask: OrderBookEntry, bid: OrderBookEntry, product: string, timestamp: string)
    ensures var r := SaleRecord(ask, bid, product, timestamp);
      && r.price == ask.price && r.priceDifference == bid.price - ask.price
      && r.product == product && r.timestamp == timestamp && r.orderStatus == InitialStatus
      && (r.username == BotUser <==> ask.username == BotUser || bid.username == BotUser)
      && (r.username != BotUser ==> r.username == DatasetUser)
      && (r.orderType == BidSale <==> bid.username == BotUser && ask.username != BotUser)
      && (r.orderType != BidSale ==> r.orderType == AskSale)
  {
  }

  // ---------------------------------------------------------------------
  // The pass

  /** The state of the inner loop: the ask, the bid book, and every sale so far. */
  datatype Pass = Pass(ask: OrderBookEntry, bids: seq<OrderBookEntry>, sales: seq<OrderBookEntry>)

  /**
   * The inner loop from bid `j` on, for one ask: skip bids already used
   * up, trade with each bid priced at or above the ask until the ask is
   * exhausted, and stop at the first bid priced below it.
   */
  function MatchAsk(ask: OrderBookEntry, bids: seq<OrderBookEntry>, j: nat, sales: seq<OrderBookEntry>, product: string, timestamp: string): Pass
    decreases |bids| - j
  {
    if j >= |bids| then Pass(ask, bids, sales)
    else if bids[j].amount == 0.0 then MatchAsk(ask, bids, j + 1, sales, product, timestamp)
    else if bids[j].price >= ask.price then
      match FillOf(ask.amount, bids[j].amount)
      case None => MatchAsk(ask, bids, j + 1, sales, product, timestamp)
      case Some(f) =>
        var sale := SaleRecord(ask, bids[j], product, timestamp).(amount := f.quantity);
        var ask' := ask.(amount := f.askLeft);
        var bids' := bids[j := bids[j].(amount := f.bidLeft)];
        if f.askFilled then Pass(ask', bids', sales + [sale])
        else MatchAsk(ask', bids', j + 1, sales + [sale], product, timestamp)
    else Pass(ask, bids, sales)
  }

  /** The state of the outer loop: the ask book, the bid book, and every sale so far. */
  datatype Book = Book(asks: seq<OrderBookEntry>, bids: seq<OrderBookEntry>, sales: seq<OrderBookEntry>)

  /** The outer loop from ask `i` on: each ask in turn against what is left of the bids. */
  function MatchFrom(asks: seq<OrderBookEntry>, bids: seq<OrderBookEntry>, i: nat, sales: seq<OrderBookEntry>, product: string, timestamp: string): Book
    decreases |asks| - i
  {
    if i >= |asks| then Book(asks, bids, sales)
    else
      var r := MatchAsk(asks[i], bids, 0, sales, product, timestamp);
      MatchFrom(asks[i := r.ask], r.bids, i + 1, r.sales, product, timestamp)
  }

  /** The participant's orders with something left, in order: what is kept for the next tick. */
  function Unresolved(orders: seq<OrderBookEntry>): seq<OrderBookEntry>
    decreases |orders|
  {
    if |orders| == 0 then []
    else
      var last := orders[|orders| - 1];
      Unresolved(orders[..|orders| - 1]) + (if last.username == BotUser && last.amount > 0.0 then [last] else [])
  }

  lemma UnresolvedSnoc(orders: seq<OrderBookEntry>, x: OrderBookEntry)
    ensures Unresolved(orders + [x]) == Unresolved(orders) + (if x.username == BotUser && x.amount > 0.0 then [x] else [])
  {
    assert (orders + [x])[..|orders|] == orders;
  }

  lemma UnresolvedPrefix(orders: seq<OrderBookEntry>, k: nat)
    requires k < |orders|
    ensures Unresolved(orders[..k + 1]) == Unresolved(orders[..k]) + (if orders[k].username == BotUser && orders[k].amount > 0.0 then [orders[k]] else [])
  {
    assert orders[..k + 1] == orders[..k] + [orders[k]];
    UnresolvedSnoc(orders[..k], orders[k]);
  }

  lemma UnresolvedReplace(orders: seq<OrderBookEntry>, i: nat, x: OrderBookEntry)
    requires i < |orders|
    ensures Unresolved(orders[i := x][..i + 1]) == Unresolved(orders[..i]) + (if x.username == BotUser && x.amount > 0.0 then [x] else [])
  {
    assert orders[i := x][..i + 1] == orders[..i] + [x];
    UnresolvedSnoc(orders[..i], x);
  }

  /** Exactly the participant's orders with a positive remainder are kept. */
  lemma {:induction false} UnresolvedMembers(orders: seq<OrderBookEntry>)
    ensures forall e :: e in Unresolved(orders) <==> e in orders && e.username == BotUser && e.amount > 0.0
    decreases |orders|
  {
    if |orders| > 0 {
      var init := orders[..|orders| - 1];
      UnresolvedMembers(init);
      assert orders == init + [orders[|orders| - 1]];
    }
  }

  // ---------------------------------------------------------------------
  // What the pass keeps

  /** The summed amount of a list of orders or sales. */
  function Total(s: seq<OrderBookEntry>): real
    decreases |s|
  {
    if |s| == 0 then 0.0 else Total(s[..|s| - 1]) + s[|s| - 1].amount
  }

  lemma TotalAppend(s: seq<OrderBookEntry>, x: OrderBookEntry)
    ensures Total(s + [x]) == Total(s) + x.amount
  {
    assert (s + [x])[..|s|] == s;
  }

  /** Replacing one entry changes the total by the difference of the two amounts. */
  lemma {:induction false} TotalUpdate(s: seq<OrderBookEntry>, j: nat, x: OrderBookEntry)
    requires j < |s|
    ensures Total(s[j := x]) == Total(s) - s[j].amount + x.amount
    decreases |s|
  {
    var n := |s| - 1;
    if j == n {
      assert s[j := x][..n] == s[..n];
    } else {
      TotalUpdate(s[..n], j, x);
      assert s[j := x][..n] == s[..n][j := x];
    }
  }

  /** No amount in the list is negative. */
  predicate NonNegative(s: seq<OrderBookEntry>) {
    forall k :: 0 <= k < |s| ==> s[k].amount >= 0.0
  }

  /** `after` is `before` with nothing but amounts changed. */
  predicate Reshaped(before: seq<OrderBookEntry>, after: seq<OrderBookEntry>) {
    && |after| == |before|
    && forall k :: 0 <= k < |before| ==> after[k] == before[k].(amount := after[k].amount)
  }

  lemma ReshapedTransitive(a: seq<OrderBookEntry>, b: seq<OrderBookEntry>, c: seq<OrderBookEntry>)
    requires Reshaped(a, b) && Reshaped(b, c)
    ensures Reshaped(a, c)
  {
    forall k | 0 <= k < |a| ensures c[k] == a[k].(amount := c[k].amount) {
      assert c[k] == b[k].(amount := c[k].amount);
    }
  }

  /**
   * `after` is `before` with nothing but amounts changed, and every amount
   * now between zero and what it was.
   */
  predicate Drawn(before: seq<OrderBookEntry>, after: seq<OrderBookEntry>) {
    && Reshaped(before, after)
    && forall k :: 0 <= k < |before| ==> 0.0 <= after[k].amount <= before[k].amount
  }

  lemma DrawnTransitive(a: seq<OrderBookEntry>, b: seq<OrderBookEntry>, c: seq<OrderBookEntry>)
    requires Drawn(a, b) && Drawn(b, c)
    ensures Drawn(a, c)
  {
    forall k | 0 <= k < |a| ensures c[k] == a[k].(amount := c[k].amount) {
      assert c[k] == b[k].(amount := c[k].amount);
    }
  }

  /** The prices of a list, in order. */
  function Prices(s: seq<OrderBookEntry>): seq<real> {
    seq(|s|, k requires 0 <= k < |s| => s[k].price)
  }

  lemma DrawnKeepsPrices(before: seq<OrderBookEntry>, after: seq<OrderBookEntry>)
    requires Drawn(before, after)
    ensures Prices(after) == Prices(before)
    ensures forall k :: 0 <= k < |after| ==> after[k].price == before[k].price
  {
    forall k | 0 <= k < |after| ensures after[k].price == before[k].price {
      assert after[k] == before[k].(amount := after[k].amount);
    }
  }

  /** Sortedness is a property of the prices alone. */
  lemma SortedBySamePrices(a: seq<OrderBookEntry>, b: seq<OrderBookEntry>, ascending: bool)
    requires SortedByPrice(a, ascending) && |a| == |b|
    requires forall k :: 0 <= k < |a| ==> a[k].price == b[k].price
    ensures SortedByPrice(b, ascending)
  {
  }

  /** A sale booked against `ask`: at its price, for its product and tick, with a surplus that is not negative. */
  predicate SaleAgainst(sale: OrderBookEntry, ask: OrderBookEntry, product: string, timestamp: string) {
    sale.price == ask.price && sale.priceDifference >= 0.0 && sale.product == product && sale.timestamp == timestamp
  }

  /** One ask against the bid book: only amounts change, and each remainder stays between zero and its start. */
  lemma {:induction false} MatchAskDraws(ask: OrderBookEntry, bids: seq<OrderBookEntry>, j: nat, sales: seq<OrderBookEntry>, product: string, timestamp: string)
    requires ask.amount >= 0.0 && NonNegative(bids)
    ensures var r := MatchAsk(ask, bids, j, sales, product, timestamp);
      && r.ask == ask.(amount := r.ask.amount) && 0.0 <= r.ask.amount <= ask.amount
      && Drawn(bids, r.bids)
    decreases |bids| - j
  {
    if j >= |bids| || (bids[j].amount != 0.0 && bids[j].price < ask.price) {
    } else if bids[j].amount == 0.0 {
      MatchAskDraws(ask, bids, j + 1, sales, product, timestamp);
    } else {
      FillIsMinimum(ask.amount, bids[j].amount);
      var f := FillOf(ask.amount, bids[j].amount).value;
      var sale := SaleRecord(ask, bids[j], product, timestamp).(amount := f.quantity);
      var ask' := ask.(amount := f.askLeft);
      var bids' := bids[j := bids[j].(amount := f.bidLeft)];
      assert Drawn(bids, bids');
      if !f.askFilled {
        var r := MatchAsk(ask', bids', j + 1, sales + [sale], product, timestamp);
        MatchAskDraws(ask', bids', j + 1, sales + [sale], product, timestamp);
        DrawnTransitive(bids, bids', r.bids);
      }
    }
  }

  /**
   * One ask against the bid book: the amounts of the sales booked add up
   * to what the ask lost and to what the bids lost.
   */
  lemma {:induction false} MatchAskConserves(ask: OrderBookEntry, bids: seq<OrderBookEntry>, j: nat, sales: seq<OrderBookEntry>, product: string, timestamp: string)
    ensures var r := MatchAsk(ask, bids, j, sales, product, timestamp);
      && Total(r.sales) - Total(sales) == ask.amount - r.ask.amount
      && Total(r.sales) - Total(sales) == Total(bids) - Total(r.bids)
    decreases |bids| - j
  {
    if j >= |bids| || (bids[j].amount != 0.0 && bids[j].price < ask.price) {
    } else if bids[j].amount == 0.0 {
      MatchAskConserves(ask, bids, j + 1, sales, product, timestamp);
    } else if FillOf(ask.amount, bids[j].amount).None? {
      MatchAskConserves(ask, bids, j + 1, sales, product, timestamp);
    } else {
      FillIsMinimum(ask.amount, bids[j].amount);
      var f := FillOf(ask.amount, bids[j].amount).value;
      var sale := SaleRecord(ask, bids[j], product, timestamp).(amount := f.quantity);
      var ask' := ask.(amount := f.askLeft);
      var bids' := bids[j := bids[j].(amount := f.bidLeft)];
      TotalAppend(sales, sale);
      TotalUpdate(bids, j, bids[j].(amount := f.bidLeft));
      if !f.askFilled {
        MatchAskConserves(ask', bids', j + 1, sales + [sale], product, timestamp);
      }
    }
  }

  /**
   * One ask against the bid book: earlier sales are kept, and every new
   * sale is at the ask's price, for the product and tick, with a
   * non-negative surplus.
   */
  lemma {:induction false} MatchAskSales(ask: OrderBookEntry, bids: seq<OrderBookEntry>, j: nat, sales: seq<OrderBookEntry>, product: string, timestamp: string)
    ensures var r := MatchAsk(ask, bids, j, sales, product, timestamp);
      && r.ask.price == ask.price
      && |sales| <= |r.sales| && r.sales[..|sales|] == sales
      && forall k :: |sales| <= k < |r.sales| ==> SaleAgainst(r.sales[k], ask, product, timestamp)
    decreases |bids| - j
  {
    var r := MatchAsk(ask, bids, j, sales, product, timestamp);
    if j >= |bids| || (bids[j].amount != 0.0 && bids[j].price < ask.price) {
      assert sales[..|sales|] == sales;
    } else if bids[j].amount == 0.0 {
      MatchAskSales(ask, bids, j + 1, sales, product, timestamp);
    } else if FillOf(ask.amount, bids[j].amount).None? {
      MatchAskSales(ask, bids, j + 1, sales, product, timestamp);
    } else {
      var f := FillOf(ask.amount, bids[j].amount).value;
      var sale := SaleRecord(ask, bids[j], product, timestamp).(amount := f.quantity);
      var ask' := ask.(amount := f.askLeft);
      var bids' := bids[j := bids[j].(amount := f.bidLeft)];
      assert SaleAgainst(sale, ask, product, timestamp);
      if f.askFilled {
        assert (sales + [sale])[..|sales|] == sales;
      } else {
        MatchAskSales(ask', bids', j + 1, sales + [sale], product, timestamp);
        assert r.sales[..|sales| + 1] == sales + [sale];
        assert r.sales[..|sales|] == (sales + [sale])[..|sales|];
        forall k | |sales| <= k < |r.sales| ensures SaleAgainst(r.sales[k], ask, product, timestamp) {
          if k == |sales| {
            assert r.sales[k] == (sales + [sale])[k];
          }
        }
      }
    }
  }

  /** The whole pass: only amounts change, and every remainder stays between zero and its start. */
  lemma {:induction false} MatchFromDraws(asks: seq<OrderBookEntry>, bids: seq<OrderBookEntry>, i: nat, sales: seq<OrderBookEntry>, product: string, timestamp: string)
    requires NonNegative(asks) && NonNegative(bids)
    ensures var r := MatchFrom(asks, bids, i, sales, product, timestamp);
      Drawn(asks, r.asks) && Drawn(bids, r.bids)
    decreases |asks| - i
  {
    if i < |asks| {
      var r := MatchAsk(asks[i], bids, 0, sales, product, timestamp);
      MatchAskDraws(asks[i], bids, 0, sales, product, timestamp);
      var asks' := asks[i := r.ask];
      assert Drawn(asks, asks');
      MatchFromDraws(asks', r.bids, i + 1, r.sales, product, timestamp);
      var b := MatchFrom(asks', r.bids, i + 1, r.sales, product, timestamp);
      DrawnTransitive(asks, asks', b.asks);
      DrawnTransitive(bids, r.bids, b.bids);
    } else {
      assert Drawn(asks, asks) && Drawn(bids, bids);
    }
  }

  /**
   * Conservation over the whole pass: the amounts of the sales booked add
   * up to what the asks lost in total and to what the bids lost in total.
   */
  lemma {:induction false} MatchFromConserves(asks: seq<OrderBookEntry>, bids: seq<OrderBookEntry>, i: nat, sales: seq<OrderBookEntry>, product: string, timestamp: string)
    ensures var r := MatchFrom(asks, bids, i, sales, product, timestamp);
      && Total(r.sales) - Total(sales) == Total(asks) - Total(r.asks)
      && Total(r.sales) - Total(sales) == Total(bids) - Total(r.bids)
    decreases |asks| - i
  {
    if i < |asks| {
      var r := MatchAsk(asks[i], bids, 0, sales, product, timestamp);
      MatchAskConserves(asks[i], bids, 0, sales, product, timestamp);
      TotalUpdate(asks, i, r.ask);
      MatchFromConserves(asks[i := r.ask], r.bids, i + 1, r.sales, product, timestamp);
    }
  }

  /**
   * Every sale of the pass is at the price of one of the asks, for the
   * product and tick, with a non-negative surplus of its bid over that
   * price; earlier sales are kept.
   */
  lemma {:induction false} MatchFromSales(asks: seq<OrderBookEntry>, bids: seq<OrderBookEntry>, i: nat, sales: seq<OrderBookEntry>, product: string, timestamp: string)
    ensures var r := MatchFrom(asks, bids, i, sales, product, timestamp);
      && Prices(r.asks) == Prices(asks)
      && |sales| <= |r.sales| && r.sales[..|sales|] == sales
      && forall k :: |sales| <= k < |r.sales| ==>
        r.sales[k].price in Prices(asks) && r.sales[k].priceDifference >= 0.0
        && r.sales[k].product == product && r.sales[k].timestamp == timestamp
    decreases |asks| - i
  {
    var b := MatchFrom(asks, bids, i, sales, product, timestamp);
    if i < |asks| {
      var r := MatchAsk(asks[i], bids, 0, sales, product, timestamp);
      MatchAskSales(asks[i], bids, 0, sales, product, timestamp);
      var asks' := asks[i := r.ask];
      assert Prices(asks') == Prices(asks);
      MatchFromSales(asks', r.bids, i + 1, r.sales, product, timestamp);
      assert b.sales[..|sales|] == b.sales[..|r.sales|][..|sales|];
      forall k | |sales| <= k < |b.sales|
        ensures b.sales[k].price in Prices(asks) && b.sales[k].priceDifference >= 0.0
      {
        if k < |r.sales| {
          assert b.sales[k] == r.sales[k];
          assert Prices(asks)[i] == asks[i].price;
        }
      }
    } else {
      assert sales[..|sales|] == sales;
    }
  }

  /** `sale` is the record `SaleRecord` makes of `ask` and a `bid` priced at or above it, with the amount traded. */
  predicate RecordOf(sale: OrderBookEntry, ask: OrderBookEntry, bid: OrderBookEntry, product: string, timestamp: string) {
    bid.price >= ask.price && sale == SaleRecord(ask, bid, product, timestamp).(amount := sale.amount)
  }

  /** A sale record reads only prices and owners, so remainders do not change it. */
  lemma RecordOfAmounts(sale: OrderBookEntry, ask: OrderBookEntry, bid: OrderBookEntry, x: real, y: real, product: string, timestamp: string)
    ensures RecordOf(sale, ask.(amount := x), bid.(amount := y), product, timestamp) <==> RecordOf(sale, ask, bid, product, timestamp)
  {
  }

  /** `sale` is the record of some ask and some bid of the two books. */
  predicate SaleOfBooks(sale: OrderBookEntry, asks: seq<OrderBookEntry>, bids: seq<OrderBookEntry>, product: string, timestamp: string) {
    exists a, b :: 0 <= a < |asks| && 0 <= b < |bids| && RecordOf(sale, asks[a], bids[b], product, timestamp)
  }

  /** A record of the books stays one when only their remainders change. */
  lemma SaleOfBooksCarried(sale: OrderBookEntry, asks: seq<OrderBookEntry>, asks': seq<OrderBookEntry>, bids: seq<OrderBookEntry>, bids': seq<OrderBookEntry>, product: string, timestamp: string)
    requires Reshaped(asks, asks') && Reshaped(bids, bids') && SaleOfBooks(sale, asks', bids', product, timestamp)
    ensures SaleOfBooks(sale, asks, bids, product, timestamp)
  {
    var a, b :| 0 <= a < |asks'| && 0 <= b < |bids'| && RecordOf(sale, asks'[a], bids'[b], product, timestamp);
    RecordOfAmounts(sale, asks[a], bids[b], asks'[a].amount, bids'[b].amount, product, timestamp);
  }

  /** What a record says of the sale: its price, its surplus, and whose it is. */
  lemma RecordFields(sale: OrderBookEntry, ask: OrderBookEntry, bid: OrderBookEntry, product: string, timestamp: string)
    requires RecordOf(sale, ask, bid, product, timestamp)
    ensures sale.price == ask.price && sale.priceDifference == bid.price - ask.price
    ensures sale.username == BotUser <==> ask.username == BotUser || bid.username == BotUser
  {
    SaleRecordAttribution(ask, bid, product, timestamp);
  }

  /** One ask against the bid book changes only remainders. */
  lemma {:induction false} MatchAskReshapes(ask: OrderBookEntry, bids: seq<OrderBookEntry>, j: nat, sales: seq<OrderBookEntry>, product: string, timestamp: string)
    ensures var r := MatchAsk(ask, bids, j, sales, product, timestamp);
      r.ask == ask.(amount := r.ask.amount) && Reshaped(bids, r.bids)
    decreases |bids| - j
  {
    if j >= |bids| || (bids[j].amount != 0.0 && bids[j].price < ask.price) {
      assert Reshaped(bids, bids);
    } else if bids[j].amount == 0.0 || FillOf(ask.amount, bids[j].amount).None? {
      MatchAskReshapes(ask, bids, j + 1, sales, product, timestamp);
    } else {
      var f := FillOf(ask.amount, bids[j].amount).value;
      var sale := SaleRecord(ask, bids[j], product, timestamp).(amount := f.quantity);
      var ask' := ask.(amount := f.askLeft);
      var bids' := bids[j := bids[j].(amount := f.bidLeft)];
      assert Reshaped(bids, bids');
      if !f.askFilled {
        var r := MatchAsk(ask', bids', j + 1, sales + [sale], product, timestamp);
        MatchAskReshapes(ask', bids', j + 1, sales + [sale], product, timestamp);
        ReshapedTransitive(bids, bids', r.bids);
      }
    }
  }

  /** Every sale one ask books is the record of that ask and a bid of the book priced at or above it. */
  lemma {:induction false} MatchAskRecords(ask: OrderBookEntry, bids: seq<OrderBookEntry>, j: nat, sales: seq<OrderBookEntry>, product: string, timestamp: string)
    ensures forall k :: |sales| <= k < |MatchAsk(ask, bids, j, sales, product, timestamp).sales| ==>
      exists b :: 0 <= b < |bids| && RecordOf(MatchAsk(ask, bids, j, sales, product, timestamp).sales[k], ask, bids[b], product, timestamp)
    decreases |bids| - j
  {
    var r := MatchAsk(ask, bids, j, sales, product, timestamp);
    if j >= |bids| || (bids[j].amount != 0.0 && bids[j].price < ask.price) {
    } else if bids[j].amount == 0.0 || FillOf(ask.amount, bids[j].amount).None? {
      MatchAskRecords(ask, bids, j + 1, sales, product, timestamp);
    } else {
      var f := FillOf(ask.amount, bids[j].amount).value;
      var sale := SaleRecord(ask, bids[j], product, timestamp).(amount := f.quantity);
      var ask' := ask.(amount := f.askLeft);
      var bids' := bids[j := bids[j].(amount := f.bidLeft)];
      assert RecordOf(sale, ask, bids[j], product, timestamp);
      if f.askFilled {
        assert r.sales == sales + [sale];
      } else {
        MatchAskRecords(ask', bids', j + 1, sales + [sale], product, timestamp);
        MatchAskSales(ask', bids', j + 1, sales + [sale], product, timestamp);
        forall k | |sales| <= k < |r.sales|
          ensures exists b :: 0 <= b < |bids| && RecordOf(r.sales[k], ask, bids[b], product, timestamp)
        {
          if k == |sales| {
            assert r.sales[k] == r.sales[..|sales| + 1][k] == sale;
          } else {
            var b :| 0 <= b < |bids'| && RecordOf(r.sales[k], ask', bids'[b], product, timestamp);
            assert bids'[b] == bids[b].(amount := bids'[b].amount);
            RecordOfAmounts(r.sales[k], ask, bids[b], ask'.amount, bids'[b].amount, product, timestamp);
          }
        }
      }
    }
  }

  /** Every sale of the pass is the record of an ask and a bid of the books it started from. */
  lemma {:induction false} MatchFromRecords(asks: seq<OrderBookEntry>, bids: seq<OrderBookEntry>, i: nat, sales: seq<OrderBookEntry>, product: string, timestamp: string)
    ensures forall k :: |sales| <= k < |MatchFrom(asks, bids, i, sales, product, timestamp).sales| ==>
      SaleOfBooks(MatchFrom(asks, bids, i, sales, product, timestamp).sales[k], asks, bids, product, timestamp)
    decreases |asks| - i
  {
    var m := MatchFrom(asks, bids, i, sales, product, timestamp);
    if i < |asks| {
      var r := MatchAsk(asks[i], bids, 0, sales, product, timestamp);
      MatchAskRecords(asks[i], bids, 0, sales, product, timestamp);
      MatchAskReshapes(asks[i], bids, 0, sales, product, timestamp);
      var asks' := asks[i := r.ask];
      assert Reshaped(asks, asks');
      MatchFromRecords(asks', r.bids, i + 1, r.sales, product, timestamp);
      MatchFromSales(asks', r.bids, i + 1, r.sales, product, timestamp);
      forall k | |sales| <= k < |m.sales|
        ensures SaleOfBooks(m.sales[k], asks, bids, product, timestamp)
      {
        if k < |r.sales| {
          assert m.sales[k] == m.sales[..|r.sales|][k] == r.sales[k];
          var b :| 0 <= b < |bids| && RecordOf(r.sales[k], asks[i], bids[b], product, timestamp);
          assert RecordOf(m.sales[k], asks[i], bids[b], product, timestamp);
        } else {
          SaleOfBooksCarried(m.sales[k], asks, asks', bids, r.bids, product, timestamp);
        }
      }
    }
  }

  /**
   * Every sale of the pass is at the price of an ask of the books, its
   * surplus is the price of a bid of the books less that ask's price, the
   * bid is priced at or above the ask, and the sale is the participant's
   * when either side is.
   */
  lemma MatchFromSaleTerms(asks: seq<OrderBookEntry>, bids: seq<OrderBookEntry>, i: nat, sales: seq<OrderBookEntry>, product: string, timestamp: string)
    ensures forall k :: |sales| <= k < |MatchFrom(asks, bids, i, sales, product, timestamp).sales| ==>
      var sale := MatchFrom(asks, bids, i, sales, product, timestamp).sales[k];
      exists a, b :: (0 <= a < |asks| && 0 <= b < |bids| && bids[b].price >= asks[a].price
        && sale.price == asks[a].price
        && sale.priceDifference == bids[b].price - asks[a].price
        && (sale.username == BotUser <==> asks[a].username == BotUser || bids[b].username == BotUser))
  {
    var m := MatchFrom(asks, bids, i, sales, product, timestamp);
    MatchFromRecords(asks, bids, i, sales, product, timestamp);
    forall k | |sales| <= k < |m.sales|
      ensures exists a, b :: (0 <= a < |asks| && 0 <= b < |bids| && bids[b].price >= asks[a].price
        && m.sales[k].price == asks[a].price
        && m.sales[k].priceDifference == bids[b].price - asks[a].price
        && (m.sales[k].username == BotUser <==> asks[a].username == BotUser || bids[b].username == BotUser))
    {
      var a, b :| 0 <= a < |asks| && 0 <= b < |bids| && RecordOf(m.sales[k], asks[a], bids[b], product, timestamp);
      RecordFields(m.sales[k], asks[a], bids[b], product, timestamp);
    }
  }

  /** No ask with something left is crossed by a bid with something left, among the first `i` asks. */
  predicate NoCross(asks: seq<OrderBookEntry>, bids: seq<OrderBookEntry>, i: nat) {
    forall a, k :: 0 <= a < i && a < |asks| && 0 <= k < |bids| && asks[a].amount > 0.0 && bids[k].amount > 0.0 ==>
      bids[k].price < asks[a].price
  }

  /**
   * With the bids sorted richest first and no negative amounts, an ask
   * leaves the inner loop either exhausted or with every bid that still
   * has something left priced below it: every bid it passed over is used
   * up, and every bid after the one it stopped at is no richer than that one.
   */
  lemma {:induction false} MatchAskClears(ask: OrderBookEntry, bids: seq<OrderBookEntry>, j: nat, sales: seq<OrderBookEntry>, product: string, timestamp: string)
    requires ask.amount >= 0.0 && NonNegative(bids) && SortedByPrice(bids, false)
    requires forall k :: 0 <= k < j && k < |bids| ==> bids[k].amount == 0.0
    ensures var r := MatchAsk(ask, bids, j, sales, product, timestamp);
      r.ask.amount == 0.0 || forall k :: 0 <= k < |r.bids| && r.bids[k].amount > 0.0 ==> r.bids[k].price < ask.price
    decreases |bids| - j
  {
    if j >= |bids| {
    } else if bids[j].amount == 0.0 {
      MatchAskClears(ask, bids, j + 1, sales, product, timestamp);
    } else if bids[j].price < ask.price {
      forall k | j < k < |bids| ensures bids[k].price <= bids[j].price {
        assert !Less(bids[k], bids[j], false);
      }
    } else {
      FillIsMinimum(ask.amount, bids[j].amount);
      var f := FillOf(ask.amount, bids[j].amount).value;
      var sale := SaleRecord(ask, bids[j], product, timestamp).(amount := f.quantity);
      var ask' := ask.(amount := f.askLeft);
      var bids' := bids[j := bids[j].(amount := f.bidLeft)];
      if f.askFilled {
        assert MatchAsk(ask, bids, j, sales, product, timestamp).ask == ask';
      } else {
        assert MatchAsk(ask, bids, j, sales, product, timestamp) == MatchAsk(ask', bids', j + 1, sales + [sale], product, timestamp);
        SortedBySamePrices(bids, bids', false);
        MatchAskClears(ask', bids', j + 1, sales + [sale], product, timestamp);
      }
    }
  }

  /** The no-crossing property, kept ask by ask through the outer loop. */
  lemma {:induction false} MatchFromClears(asks: seq<OrderBookEntry>, bids: seq<OrderBookEntry>, i: nat, sales: seq<OrderBookEntry>, product: string, timestamp: string)
    requires NonNegative(asks) && NonNegative(bids) && SortedByPrice(bids, false)
    requires i <= |asks| && NoCross(asks, bids, i)
    ensures var r := MatchFrom(asks, bids, i, sales, product, timestamp);
      NoCross(r.asks, r.bids, |r.asks|)
    decreases |asks| - i
  {
    if i < |asks| {
      var r := MatchAsk(asks[i], bids, 0, sales, product, timestamp);
      MatchAskDraws(asks[i], bids, 0, sales, product, timestamp);
      MatchAskClears(asks[i], bids, 0, sales, product, timestamp);
      MatchAskSales(asks[i], bids, 0, sales, product, timestamp);
      DrawnKeepsPrices(bids, r.bids);
      SortedBySamePrices(bids, r.bids, false);
      var asks' := asks[i := r.ask];
      assert NoCross(asks', r.bids, i + 1) by {
        forall a, k | 0 <= a < i + 1 && 0 <= k < |r.bids| && asks'[a].amount > 0.0 && r.bids[k].amount > 0.0
          ensures r.bids[k].price < asks'[a].price
        {
          if a < i {
            assert asks'[a] == asks[a];
            assert bids[k].amount > 0.0;
          }
        }
      }
      MatchFromClears(asks', r.bids, i + 1, r.sales, product, timestamp);
    }
  }

  /**
   * No crossed remainder: after the pass over bids sorted richest first,
   * no ask and bid that both have something left could still trade.
   */
  lemma NoCrossedRemainder(asks: seq<OrderBookEntry>, bids: seq<OrderBookEntry>, product: string, timestamp: string)
    requires NonNegative(asks) && NonNegative(bids) && SortedByPrice(bids, false)
    ensures var r := MatchFrom(asks, bids, 0, [], product, timestamp);
      forall a, k :: 0 <= a < |r.asks| && 0 <= k < |r.bids| && r.asks[a].amount > 0.0 && r.bids[k].amount > 0.0 ==>
        r.bids[k].price < r.asks[a].price
  {
    MatchFromClears(asks, bids, 0, [], product, timestamp);
  }

  /** With every bid already used up, no ask trades and nothing changes. */
  lemma {:induction false} MatchAskWithoutBids(ask: OrderBookEntry, bids: seq<OrderBookEntry>, j: nat, sales: seq<OrderBookEntry>, product: string, timestamp: string)
    requires forall k :: 0 <= k < |bids| ==> bids[k].amount == 0.0
    ensures MatchAsk(ask, bids, j, sales, product, timestamp) == Pass(ask, bids, sales)
    decreases |bids| - j
  {
    if j < |bids| {
      MatchAskWithoutBids(ask, bids, j + 1, sales, product, timestamp);
    }
  }

  lemma {:induction false} MatchFromWithoutBids(asks: seq<OrderBookEntry>, bids: seq<OrderBookEntry>, i: nat, sales: seq<OrderBookEntry>, product: string, timestamp: string)
    requires forall k :: 0 <= k < |bids| ==> bids[k].amount == 0.0
    ensures MatchFrom(asks, bids, i, sales, product, timestamp) == Book(asks, bids, sales)
    decreases |asks| - i
  {
    if i < |asks| {
      MatchAskWithoutBids(asks[i], bids, 0, sales, product, timestamp);
      assert asks[i := asks[i]] == asks;
      MatchFromWithoutBids(asks, bids, i + 1, sales, product, timestamp);
    }
  }

  /** A bid of 10 at 100 against an ask of 10 at 95: one sale of 10 at 95 with surplus 5, and nothing left. */
  lemma MatchExample()
    ensures var ask := OrderBookEntry(95.0, 10.0, "t", "ETH/BTC", Ask);
      var bid := OrderBookEntry(100.0, 10.0, "t", "ETH/BTC", Bid);
      var r := MatchFrom([ask], [bid], 0, [], "ETH/BTC", "t");
      && r.sales == [OrderBookEntry(95.0, 10.0, "t", "ETH/BTC", AskSale, 5.0)]
      && r.asks == [ask.(amount := 0.0)] && r.bids == [bid.(amount := 0.0)]
      && Unresolved(r.asks) == [] && Unresolved(r.bids) == []
  {
    var ask := OrderBookEntry(95.0, 10.0, "t", "ETH/BTC", Ask);
    var bid := OrderBookEntry(100.0, 10.0, "t", "ETH/BTC", Bid);
    var sale := OrderBookEntry(95.0, 10.0, "t", "ETH/BTC", AskSale, 5.0);
    assert MatchAsk(ask, [bid], 0, [], "ETH/BTC", "t") == Pass(ask.(amount := 0.0), [bid.(amount := 0.0)], [sale]);
    assert [ask][0 := ask.(amount := 0.0)] == [ask.(amount := 0.0)];
  }

  /**
   * `std::sort` with `compareByPriceAsc` or `compareByPriceDesc`: some
   * sorted arrangement of the same entries. The order among equal prices
   * is not fixed, so the result is any arrangement that satisfies the
   * contract.
   */
  method SortByPrice(orders: seq<OrderBookEntry>, ascending: bool) returns (sorted: seq<OrderBookEntry>)
    ensures SortedByPrice(sorted, ascending) && multiset(sorted) == multiset(orders)
  {
    InsertionSortSpec(orders, ascending);
    sorted :| SortedByPrice(sorted, ascending) && multiset(sorted) == multiset(orders);
  }

  /**
   * The inner loop of `matchAsksToBids`: one ask against the bid book, in
   * bid order, with the source's three fill cases and its two exits.
   */
  method SweepBids(ask0: OrderBookEntry, bids0: seq<OrderBookEntry>, sales0: seq<OrderBookEntry>, product: string, timestamp: string)
    returns (ask: OrderBookEntry, bids: seq<OrderBookEntry>, sales: seq<OrderBookEntry>)
    ensures Pass(ask, bids, sales) == MatchAsk(ask0, bids0, 0, sales0, product, timestamp)
  {
    ask, bids, sales := ask0, bids0, sales0;
    var j := 0;
    while j < |bids|
      invariant 0 <= j <= |bids|
      invariant MatchAsk(ask0, bids0, 0, sales0, product, timestamp) == MatchAsk(ask, bids, j, sales, product, timestamp)
      decreases |bids| - j
    {
      var bid := bids[j];
      if bid.amount == 0.0 {
        j := j + 1;
        continue;
      }
      if bid.price >= ask.price {
        var sale := SaleRecord(ask, bid, product, timestamp);
        if bid.amount == ask.amount {
          sales := sales + [sale.(amount := ask.amount)];
          bids := bids[j := bid.(amount := 0.0)];
          ask := ask.(amount := 0.0);
          return;
        }
        if bid.amount > ask.amount {
          sales := sales + [sale.(amount := ask.amount)];
          bids := bids[j := bid.(amount := bid.amount - ask.amount)];
          ask := ask.(amount := 0.0);
          return;
        }
        if bid.amount < ask.amount && bid.amount > 0.0 {
          sales := sales + [sale.(amount := bid.amount)];
          ask := ask.(amount := ask.amount - bid.amount);
          bids := bids[j := bid.(amount := 0.0)];
        }
      }
      if bid.price < ask.price {
        return;
      }
      j := j + 1;
    }
  }

  // ---------------------------------------------------------------------
  // The book

  /** The order book's state that the pass changes: the participant's orders kept for the next tick. */
  class OrderBook {
    var activeUserOrders: seq<OrderBookEntry>

    constructor()
      ensures activeUserOrders == []
    {
      activeUserOrders := [];
    }

    /**
     * `matchAsksToBids`. The asks and bids of the tick are filtered out of
     * `currentOrders` (a value: the caller's list is not changed) and put
     * in some price order `std::sort` may produce; the sales returned are
     * those of the pass over them, and the participant's orders still
     * unresolved, asks first and then bids, are appended to the active list.
     */
    method MatchAsksToBids(currentOrders: seq<OrderBookEntry>, product: string, timestamp: string)
      returns (sales: seq<OrderBookEntry>, ghost sortedAsks: seq<OrderBookEntry>, ghost sortedBids: seq<OrderBookEntry>)
      modifies this
      ensures SortedByPrice(sortedAsks, true) && multiset(sortedAsks) == multiset(OrdersWhere(currentOrders, Ask, product, timestamp))
      ensures SortedByPrice(sortedBids, false) && multiset(sortedBids) == multiset(OrdersWhere(currentOrders, Bid, product, timestamp))
      ensures var run := MatchFrom(sortedAsks, sortedBids, 0, [], product, timestamp);
        && sales == run.sales
        && activeUserOrders == old(activeUserOrders) + Unresolved(run.asks) + Unresolved(run.bids)
    {
      var asks := GetOrders(currentOrders, Ask, product, timestamp);
      var bids := GetOrders(currentOrders, Bid, product, timestamp);
      asks := SortByPrice(asks, true);
      bids := SortByPrice(bids, false);
      sortedAsks, sortedBids := asks, bids;
      sales := MatchSorted(asks, bids, product, timestamp);
    }

    /** The two loops of `matchAsksToBids` over the sorted asks and bids. */
    method MatchSorted(asks0: seq<OrderBookEntry>, bids0: seq<OrderBookEntry>, product: string, timestamp: string)
      returns (sales: seq<OrderBookEntry>)
      modifies this
      ensures var run := MatchFrom(asks0, bids0, 0, [], product, timestamp);
        && sales == run.sales
        && activeUserOrders == old(activeUserOrders) + Unresolved(run.asks) + Unresolved(run.bids)
    {
      var asks, bids := asks0, bids0;
      sales := [];
      var i := 0;
      while i < |asks|
        invariant 0 <= i <= |asks|
        invariant MatchFrom(asks, bids, i, sales, product, timestamp) == MatchFrom(asks0, bids0, 0, [], product, timestamp)
        invariant activeUserOrders == old(activeUserOrders) + Unresolved(asks[..i])
        decreases |asks| - i
      {
        var ask;
        ask, bids, sales := SweepBids(asks[i], bids, sales, product, timestamp);
        UnresolvedReplace(asks, i, ask);
        asks := asks[i := ask];
        if ask.username == BotUser && ask.amount > 0.0 {
          activeUserOrders := activeUserOrders + [ask];
        }
        i := i + 1;
      }
      assert asks[..i] == asks;
      KeepUnresolved(bids);
    }

    /** The last loop of `matchAsksToBids`: the participant's bids with something left are kept. */
    method KeepUnresolved(orders: seq<OrderBookEntry>)
      modifies this
      ensures activeUserOrders == old(activeUserOrders) + Unresolved(orders)
    {
      for k := 0 to |orders|
        invariant activeUserOrders == old(activeUserOrders) + Unresolved(orders[..k])
      {
        UnresolvedPrefix(orders, k);
        var order := orders[k];
        if order.username == BotUser && order.amount > 0.0 {
          activeUserOrders := activeUserOrders + [order];
        }
      }
      assert orders[..|orders|] == orders;
    }
  }
}
