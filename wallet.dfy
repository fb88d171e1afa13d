/**
 * A wallet: a map from currency name to balance. Inserting fails on a
 * negative amount; removing is guarded by a presence check and by a
 * balance test that tolerates a shortfall of one part in ten thousand.
 */
module WalletStore {
  import opened OrderEntries
  import CsvReader

  /** The balances, by currency name. */
  type Balances = map<string, real>

  /** The factor that forgives floating-point shortfalls in the reserved pool. */
  const Tolerance: real := 0.9999

  /** What `currencies[c]` reads: an absent currency reads as 0. */
  function Balance(m: Balances, c: string): real {
    if c in m then m[c] else 0.0
  }

  /** `currencies[c] += d` through `operator[]`: the key is created at 0 first when absent. */
  function Credited(m: Balances, c: string, d: real): Balances {
    m[c := Balance(m, c) + d]
  }

  /** A bare `operator[]` read: the key is created at 0 when absent, and nothing else changes. */
  function Touched(m: Balances, c: string): Balances {
    m[c := Balance(m, c)]
  }

  /** Crediting changes only `c`, by exactly `d`, and keeps every key. */
  lemma CreditedSpec(m: Balances, c: string, d: real)
    ensures c in Credited(m, c, d) && Credited(m, c, d).Keys == m.Keys + {c}
    ensures Balance(Credited(m, c, d), c) == Balance(m, c) + d
    ensures forall k :: k != c ==> Balance(Credited(m, c, d), k) == Balance(m, k)
  {
  }

  /** Touching a key changes no balance. */
  lemma TouchedKeepsBalances(m: Balances, c: string)
    ensures forall k :: Balance(Touched(m, c), k) == Balance(m, k)
    ensures c in m ==> Touched(m, c) == m
  {
  }

  /**
   * `containsCurrency`: an absent currency is never held, not even for a
   * zero amount; otherwise the balance must reach 0.9999 of the amount.
   */
  function ContainsCurrency(m: Balances, currency: string, amount: real): bool {
    currency in m && m[currency] >= Tolerance * amount
  }

  /** What the tolerance allows: enough is always accepted, and an accepted shortfall is at most amount/10000. */
  lemma ContainsCurrencyBounds(m: Balances, currency: string, amount: real)
    ensures currency !in m ==> !ContainsCurrency(m, currency, amount)
    ensures currency in m && amount >= 0.0 && m[currency] >= amount ==> ContainsCurrency(m, currency, amount)
    ensures ContainsCurrency(m, currency, amount) && amount >= 0.0 ==> m[currency] >= amount - amount / 10000.0
    ensures ContainsCurrency(m, currency, amount) && amount >= 0.0 ==> m[currency] >= 0.0
  {
  }

  /** Absent means not held even for amount 0, while a present zero balance holds 0. */
  lemma ContainsCurrencyZero(currency: string)
    ensures !ContainsCurrency(map[], currency, 0.0)
    ensures ContainsCurrency(map[currency := 0.0], currency, 0.0)
  {
  }

  /** The guard of `removeCurrency`: non-negative, present, and enough up to the tolerance. */
  predicate Withdrawable(m: Balances, currency: string, amount: real) {
    amount >= 0.0 && currency in m && ContainsCurrency(m, currency, amount)
  }

  /** `currencies[c] -= a` on a present key. */
  function Withdrawn(m: Balances, currency: string, amount: real): Balances
    requires currency in m
  {
    m[currency := m[currency] - amount]
  }

  /**
   * `canFulfillOrder`: an ask must be covered in the product's first
   * currency for its amount, a bid in the second currency for amount times
   * price; every other kind of entry is refused.
   */
  function CanFulfillOrder(m: Balances, order: OrderBookEntry): (r: bool)
    requires order.orderType == Ask ==> |CsvReader.Tokens(order.product, '/')| >= 1
    requires order.orderType == Bid ==> CsvReader.IsPair(order.product)
    ensures order.orderType == Ask ==> (r <==> ContainsCurrency(m, CsvReader.Base(order.product), order.amount))
    ensures order.orderType == Bid ==> (r <==> ContainsCurrency(m, CsvReader.Quote(order.product), order.amount * order.price))
    ensures order.orderType != Ask && order.orderType != Bid ==> !r
  {
    if order.orderType == Ask then ContainsCurrency(m, CsvReader.Base(order.product), order.amount)
    else if order.orderType == Bid then ContainsCurrency(m, CsvReader.Quote(order.product), order.amount * order.price)
    else false
  }

  /**
   * An order that passes the affordability check can have its cost
   * withdrawn from the same wallet, provided the cost is not negative.
   */
  lemma FulfillableOrderIsWithdrawable(m: Balances, order: OrderBookEntry)
    requires order.orderType == Ask || order.orderType == Bid
    requires CsvReader.IsPair(order.product)
    requires CanFulfillOrder(m, order)
    ensures order.orderType == Ask && order.amount >= 0.0 ==>
      Withdrawable(m, CsvReader.Base(order.product), order.amount)
    ensures order.orderType == Bid && order.amount * order.price >= 0.0 ==>
      Withdrawable(m, CsvReader.Quote(order.product), order.amount * order.price)
  {
  }

  /** Withdrawing what was just credited gives the balances back. */
  lemma WithdrawUndoesCredit(m: Balances, currency: string, amount: real)
    requires amount >= 0.0 && Balance(m, currency) >= 0.0
    ensures Withdrawable(Credited(m, currency, amount), currency, amount)
    ensures Withdrawn(Credited(m, currency, amount), currency, amount) == Touched(m, currency)
  {
  }

  /** Crediting what was just withdrawn gives the map back unchanged. */
  lemma CreditUndoesWithdraw(m: Balances, currency: string, amount: real)
    requires currency in m
    ensures Credited(Withdrawn(m, currency, amount), currency, amount) == m
  {
  }

  /** A successful removal can leave a balance below zero, by up to a ten-thousandth of the amount. */
  lemma RemovalCanOverdraw()
    ensures Withdrawable(map["BTC" := 0.9999], "BTC", 1.0)
    ensures Withdrawn(map["BTC" := 0.9999], "BTC", 1.0)["BTC"] < 0.0
  {
  }

  /** A wallet of the simulated participant or of one of its pools. */
  class Wallet {
    var currencies: Balances

    constructor()
      ensures currencies == map[]
    {
      currencies := map[];
    }

    /**
     * `insertCurrency`: a negative amount throws before anything changes
     * (`ok` is false); otherwise the balance, read as 0 when absent, grows
     * by the amount.
     */
    method InsertCurrency(currency: string, amount: real) returns (ok: bool)
      modifies this
      ensures ok <==> amount >= 0.0
      ensures currencies == if ok then Credited(old(currencies), currency, amount) else old(currencies)
    {
      if amount < 0.0 {
        return false;
      }
      var balance: real;
      if currency !in currencies {
        balance := 0.0;
      } else {
        balance := currencies[currency];
      }
      balance := balance + amount;
      currencies := currencies[currency := balance];
      ok := true;
    }

    /**
     * `removeCurrency`: refused, with nothing changed, for a negative
     * amount, an absent currency or too small a balance; otherwise the
     * balance falls by exactly the amount.
     */
    method RemoveCurrency(currency: string, amount: real) returns (removed: bool)
      modifies this
      ensures removed == Withdrawable(old(currencies), currency, amount)
      ensures currencies == if removed then Withdrawn(old(currencies), currency, amount) else old(currencies)
    {
      if amount < 0.0 {
        return false;
      }
      if currency !in currencies {
        return false;
      }
      if ContainsCurrency(currencies, currency, amount) {
        currencies := currencies[currency := currencies[currency] - amount];
        return true;
      }
      return false;
    }
  }
}
