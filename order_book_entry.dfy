/**
 * The order and trade record used everywhere in the simulator, the parse of
 * its side from text, and the three comparators used for sorting.
 */
module OrderEntries {

  /** The side of an order, or the kind of trade a sale record reports. */
  datatype OrderBookType = Bid | Ask | Unknown | AskSale | BidSale

  /** The submitter name of every order read from the dataset, and of trades nobody owns. */
  const DatasetUser: string := "dataset"
  /** The submitter name of the simulated participant's orders. */
  const BotUser: string := "botuser"
  /** The status every newly built entry starts with. */
  const InitialStatus: string := "initial"
  /** The status of a participant order moved on to the next tick. */
  const CarryoverStatus: string := "carryover"
  /** The status of an order withdrawn by the participant. */
  const CancelledStatus: string := "cancelled"

  /**
   * One order or one trade. The last three fields have the same defaults as
   * the C++ constructor, so `OrderBookEntry(p, a, t, pr, ty)` is the
   * five-argument construction of the source.
   */
  datatype OrderBookEntry = OrderBookEntry(
    price: real,
    amount: real,
    timestamp: string,
    product: string,
    orderType: OrderBookType,
    priceDifference: real := 0.0,
    username: string := "dataset",
    orderStatus: string := "initial")

  /** The five-argument construction fills the defaults and copies the rest unchanged. */
  lemma ConstructorDefaults(price: real, amount: real, timestamp: string, product: string, orderType: OrderBookType)
    ensures var e := OrderBookEntry(price, amount, timestamp, product, orderType);
      && e.price == price && e.amount == amount && e.timestamp == timestamp
      && e.product == product && e.orderType == orderType
      && e.priceDifference == 0.0 && e.username == DatasetUser && e.orderStatus == InitialStatus
  {
  }

  /** Parses the side column of the dataset: only "ask" and "bid" are recognised. */
  function StringToOrderBookType(s: string): (t: OrderBookType)
    ensures t == Ask <==> s == "ask"
    ensures t == Bid <==> s == "bid"
    ensures t == Unknown <==> s != "ask" && s != "bid"
    ensures t != AskSale && t != BidSale
  {
    if s == "ask" then Ask
    else if s == "bid" then Bid
    else Unknown
  }

  /**
   * `std::string`'s `operator<`: lexicographic comparison by character code,
   * where a proper prefix comes first.
   */
  predicate LexLess(a: string, b: string)
    decreases |a|
  {
    if |a| == 0 then |b| > 0
    else if |b| == 0 then false
    else if a[0] != b[0] then a[0] < b[0]
    else LexLess(a[1..], b[1..])
  }

  lemma {:induction false} LexLessIrreflexive(a: string)
    ensures !LexLess(a, a)
    decreases |a|
  {
    if |a| > 0 {
      LexLessIrreflexive(a[1..]);
    }
  }

  lemma {:induction false} LexLessTransitive(a: string, b: string, c: string)
    requires LexLess(a, b) && LexLess(b, c)
    ensures LexLess(a, c)
    decreases |a|
  {
    if |a| > 0 && a[0] == b[0] && b[0] == c[0] {
      LexLessTransitive(a[1..], b[1..], c[1..]);
    }
  }

  /** Any two different strings are ordered one way or the other. */
  lemma {:induction false} LexLessTotal(a: string, b: string)
    requires a != b
    ensures LexLess(a, b) || LexLess(b, a)
    decreases |a|
  {
    if |a| > 0 && |b| > 0 && a[0] == b[0] {
      assert a == [a[0]] + a[1..] && b == [b[0]] + b[1..];
      LexLessTotal(a[1..], b[1..]);
    }
  }

  lemma LexLessAsymmetric(a: string, b: string)
    requires LexLess(a, b)
    ensures !LexLess(b, a)
  {
    if LexLess(b, a) {
      LexLessTransitive(a, b, a);
      LexLessIrreflexive(a);
    }
  }

  /** Orders two entries by timestamp text. */
  predicate CompareByTimestamp(e1: OrderBookEntry, e2: OrderBookEntry) {
    LexLess(e1.timestamp, e2.timestamp)
  }

  /**
   * The timestamp comparator is a strict weak order on entries: irreflexive,
   * transitive, and it orders every two entries whose timestamps differ.
   */
  lemma CompareByTimestampIsStrictOrder(e1: OrderBookEntry, e2: OrderBookEntry, e3: OrderBookEntry)
    ensures !CompareByTimestamp(e1, e1)
    ensures CompareByTimestamp(e1, e2) && CompareByTimestamp(e2, e3) ==> CompareByTimestamp(e1, e3)
    ensures CompareByTimestamp(e1, e2) ==> !CompareByTimestamp(e2, e1)
    ensures e1.timestamp != e2.timestamp ==> CompareByTimestamp(e1, e2) || CompareByTimestamp(e2, e1)
  {
    LexLessIrreflexive(e1.timestamp);
    if CompareByTimestamp(e1, e2) && CompareByTimestamp(e2, e3) {
      LexLessTransitive(e1.timestamp, e2.timestamp, e3.timestamp);
    }
    if CompareByTimestamp(e1, e2) {
      LexLessAsymmetric(e1.timestamp, e2.timestamp);
    }
    if e1.timestamp != e2.timestamp {
      LexLessTotal(e1.timestamp, e2.timestamp);
    }
  }

  /** Cheapest first. */
  predicate CompareByPriceAsc(e1: OrderBookEntry, e2: OrderBookEntry) {
    e1.price < e2.price
  }

  /** Richest first. */
  predicate CompareByPriceDesc(e1: OrderBookEntry, e2: OrderBookEntry) {
    e1.price > e2.price
  }

  /**
   * The ascending comparator is a strict weak order (what `std::sort` needs):
   * irreflexive, asymmetric, transitive, and "neither before the other" is
   * transitive too.
   */
  lemma CompareByPriceAscIsStrictWeakOrder(a: OrderBookEntry, b: OrderBookEntry, c: OrderBookEntry)
    ensures !CompareByPriceAsc(a, a)
    ensures CompareByPriceAsc(a, b) ==> !CompareByPriceAsc(b, a)
    ensures CompareByPriceAsc(a, b) && CompareByPriceAsc(b, c) ==> CompareByPriceAsc(a, c)
    ensures !CompareByPriceAsc(a, b) && !CompareByPriceAsc(b, a) && !CompareByPriceAsc(b, c) && !CompareByPriceAsc(c, b)
      ==> !CompareByPriceAsc(a, c) && !CompareByPriceAsc(c, a)
  {
  }

  /** The descending comparator is the ascending one with its arguments swapped. */
  lemma CompareByPriceDescIsSwappedAsc(a: OrderBookEntry, b: OrderBookEntry)
    ensures CompareByPriceDesc(a, b) == CompareByPriceAsc(b, a)
  {
  }
}
