/**
 * packages/storage/src/transactions.ts
 *
 * The holdings table is derived from the transactions table. Quantities and prices are
 * reals; the rounding of the source's numbers is not modelled.
 */
module Holdings {
  import opened Prelude

  datatype Action = Buy | Sell | Split | Dividend | Fee

  datatype Tx = Tx(id: string, portfolio: string, symbol: string, action: Action, quantity: real,
                   price: Option<real>, fee: real, currency: string, executedAt: int, source: string,
                   note: Option<string>, createdAt: int)

  datatype Holding = Holding(quantity: real, averageCost: real)

  /** A holdings row is keyed by its portfolio and its symbol. */
  type Key = (string, string)

  // ----- What a symbol's transactions add up to -------------------------------------------

  datatype Acc = Acc(qty: real, buyQtySum: real, buyCostSum: real)

  const Zero := Acc(0.0, 0.0, 0.0)

  function Add(a: Acc, b: Acc): Acc {
    Acc(a.qty + b.qty, a.buyQtySum + b.buyQtySum, a.buyCostSum + b.buyCostSum)
  }

  predicate PricedBuy(t: Tx) { t.action.Buy? && t.price.Some? }

  function Weight(t: Tx): Acc {
    Acc(match t.action
        case Buy => t.quantity
        case Split => t.quantity
        case Sell => -t.quantity
        case _ => 0.0,
        if PricedBuy(t) then t.quantity else 0.0,
        if PricedBuy(t) then t.quantity * t.price.value else 0.0)
  }

  predicate Concerns(t: Tx, k: Key) { t.portfolio == k.0 && t.symbol == k.1 }

  function Totals(txs: seq<Tx>, k: Key): Acc {
    if txs == [] then Zero
    else
      var last := txs[|txs| - 1];
      Add(Totals(txs[..|txs| - 1], k), Share(last, k))
  }

  function Share(t: Tx, k: Key): Acc { if Concerns(t, k) then Weight(t) else Zero }

  lemma TotalsSnoc(a: seq<Tx>, t: Tx, k: Key)
    ensures Totals(a + [t], k) == Add(Totals(a, k), Share(t, k))
  {
    assert (a + [t])[..|a + [t]| - 1] == a;
  }

  lemma TotalsOfTwo(a: Tx, b: Tx, k: Key)
    ensures Totals([a, b], k) == Add(Share(a, k), Share(b, k))
  {
    assert [a, b] == ([] + [a]) + [b] && Totals([], k) == Zero;
    hide Totals, Share;
    TotalsSnoc([], a, k);
    TotalsSnoc([] + [a], b, k);
  }

  function Average(a: Acc): real { if a.buyQtySum > 0.0 then a.buyCostSum / a.buyQtySum else 0.0 }

  function HoldingOf(a: Acc): Holding { Holding(a.qty, Average(a)) }

  function KeysOf(txs: seq<Tx>): set<Key> { set t | t in txs :: (t.portfolio, t.symbol) }

  /** The whole holdings table that belongs to these transactions. */
  function HoldingsOf(txs: seq<Tx>): map<Key, Holding> {
    map k | k in KeysOf(txs) && Totals(txs, k).qty > 0.0 :: HoldingOf(Totals(txs, k))
  }

  /** `recomputeHoldings`: the rows of one portfolio are replaced. */
  function Recomputed(h: map<Key, Holding>, txs: seq<Tx>, portfolio: string): map<Key, Holding> {
    map k | k in h.Keys + KeysOf(txs) && (if k.0 == portfolio then Totals(txs, k).qty > 0.0 else k in h)
      :: if k.0 == portfolio then HoldingOf(Totals(txs, k)) else h[k]
  }

  // ----- Sums do not depend on the order ----------------------------------------------------

  lemma {:induction false} TotalsConcat(a: seq<Tx>, b: seq<Tx>, k: Key)
    ensures Totals(a + b, k) == Add(Totals(a, k), Totals(b, k))
  {
    if b == [] {
      assert a + b == a;
    } else {
      assert (a + b)[..|a + b| - 1] == a + b[..|b| - 1];
      TotalsConcat(a, b[..|b| - 1], k);
    }
  }

  lemma TotalsMiddle(a: seq<Tx>, t: Tx, b: seq<Tx>, k: Key)
    ensures Totals(a + [t] + b, k) == Add(Totals(a + b, k), Share(t, k))
  {
    hide Totals, Share;
    TotalsConcat(a + [t], b, k);
    TotalsConcat(a, b, k);
    TotalsSnoc(a, t, k);
  }

  /** Two listings of the same transactions have the same totals. */
  lemma {:induction false} OrderIndependent(a: seq<Tx>, b: seq<Tx>, k: Key)
    requires multiset(a) == multiset(b)
    ensures Totals(a, k) == Totals(b, k)
    decreases |a|
  {
    if a == [] {
      assert |multiset(b)| == |b| == 0;
    } else {
      var t, init := a[|a| - 1], a[..|a| - 1];
      assert a == init + [t];
      var i := FindIn(init, t, b);
      hide Totals, Share;
      OrderIndependent(init, b[..i] + b[i + 1..], k);
      TotalsMiddle(b[..i], t, b[i + 1..], k);
      TotalsSnoc(init, t, k);
    }
  }

  lemma FindIn(init: seq<Tx>, t: Tx, b: seq<Tx>) returns (i: nat)
    requires multiset(init + [t]) == multiset(b)
    ensures i < |b| && b == b[..i] + [t] + b[i + 1..] && multiset(init) == multiset(b[..i] + b[i + 1..])
  {
    assert t in multiset(b);
    i :| 0 <= i < |b| && b[i] == t;
    assert b == b[..i] + [t] + b[i + 1..];
    assert multiset(b) == multiset(b[..i] + [t]) + multiset(b[i + 1..]);
    assert multiset(b) == multiset(b[..i] + b[i + 1..]) + multiset{t};
    assert multiset(init + [t]) == multiset(init) + multiset{t};
    assert multiset(init + [t]) - multiset{t} == multiset(init);
  }

  /** A symbol without transactions has no total. */
  lemma {:induction false} TotalsAbsent(txs: seq<Tx>, k: Key)
    requires k !in KeysOf(txs)
    ensures Totals(txs, k) == Zero
  {
    if txs != [] {
      var init, last := txs[..|txs| - 1], txs[|txs| - 1];
      assert (last.portfolio, last.symbol) in KeysOf(txs);
      assert forall t :: t in init ==> t in txs;
      TotalsAbsent(init, k);
    }
  }

  /** A row exists exactly for the symbols of which a positive quantity is left. */
  lemma RowIffPositive(txs: seq<Tx>, k: Key)
    ensures k in HoldingsOf(txs) <==> Totals(txs, k).qty > 0.0
    ensures k in HoldingsOf(txs) ==> HoldingsOf(txs)[k] == HoldingOf(Totals(txs, k))
  {
    if k !in KeysOf(txs) {
      TotalsAbsent(txs, k);
    }
  }

  /** The table does not depend on the order of the transactions. */
  lemma {:induction false} HoldingsIgnoreOrder(a: seq<Tx>, b: seq<Tx>)
    requires multiset(a) == multiset(b)
    ensures HoldingsOf(a) == HoldingsOf(b)
  {
    forall k ensures (k in HoldingsOf(a) <==> k in HoldingsOf(b))
                  && (k in HoldingsOf(a) ==> HoldingsOf(a)[k] == HoldingsOf(b)[k]) {
      OrderIndependent(a, b, k);
      RowIffPositive(a, k);
      RowIffPositive(b, k);
    }
  }

  // ----- The rows, from sums over the transactions ------------------------------------------------

  predicate About(t: Tx, k: Key, action: Action) { t.portfolio == k.0 && t.symbol == k.1 && t.action == action }

  /** The quantities of all transactions of one kind. */
  function Sum(txs: seq<Tx>, k: Key, action: Action): real {
    if txs == [] then 0.0
    else
      var n := |txs| - 1;
      Sum(txs[..n], k, action) + if About(txs[n], k, action) then txs[n].quantity else 0.0
  }

  /** The quantities of the buys that have a price. */
  function SumPriced(txs: seq<Tx>, k: Key): real {
    if txs == [] then 0.0
    else
      var n := |txs| - 1;
      SumPriced(txs[..n], k) + if About(txs[n], k, Buy) && txs[n].price.Some? then txs[n].quantity else 0.0
  }

  /** What was paid for them. */
  function Paid(txs: seq<Tx>, k: Key): real {
    if txs == [] then 0.0
    else
      var n := |txs| - 1;
      Paid(txs[..n], k) + if About(txs[n], k, Buy) && txs[n].price.Some? then txs[n].quantity * txs[n].price.value else 0.0
  }

  lemma {:induction false} TotalsAreSums(txs: seq<Tx>, k: Key)
    ensures Totals(txs, k) == Acc(Sum(txs, k, Buy) + Sum(txs, k, Split) - Sum(txs, k, Sell), SumPriced(txs, k), Paid(txs, k))
  {
    if txs != [] {
      TotalsAreSums(txs[..|txs| - 1], k);
    }
  }

  /**
   * A symbol has a row exactly if more of it was bought and split off than sold, and then the row
   * holds the difference, at the price paid on average for the buys that have one.
   */
  lemma {:induction false} RowsAreSums(txs: seq<Tx>, k: Key)
    ensures k in HoldingsOf(txs) <==> Sum(txs, k, Buy) + Sum(txs, k, Split) > Sum(txs, k, Sell)
    ensures k in HoldingsOf(txs) ==>
              var row := HoldingsOf(txs)[k];
              && row.quantity == Sum(txs, k, Buy) + Sum(txs, k, Split) - Sum(txs, k, Sell)
              && row.averageCost == if SumPriced(txs, k) > 0.0 then Paid(txs, k) / SumPriced(txs, k) else 0.0
  {
    RowIffPositive(txs, k);
    TotalsAreSums(txs, k);
  }

  // ----- The average ------------------------------------------------------------------------

  /** The priced buys of a symbol cost between `low` and `high` a piece, and buy something. */
  ghost predicate PricedWithin(txs: seq<Tx>, k: Key, low: real, high: real) {
    forall t :: t in txs && Concerns(t, k) && PricedBuy(t) ==> low <= t.price.value <= high && t.quantity >= 0.0
  }

  ghost predicate Within(a: Acc, low: real, high: real) {
    a.buyQtySum >= 0.0 && low * a.buyQtySum <= a.buyCostSum <= high * a.buyQtySum
  }

  lemma {:induction false} CostWithin(txs: seq<Tx>, k: Key, low: real, high: real)
    requires PricedWithin(txs, k, low, high)
    ensures Within(Totals(txs, k), low, high)
  {
    if txs != [] {
      var init, t := txs[..|txs| - 1], txs[|txs| - 1];
      assert forall u :: u in init ==> u in txs;
      assert t in txs && txs == init + [t];
      CostWithin(init, k, low, high);
      TotalsSnoc(init, t, k);
      hide Totals, PricedWithin, Within;
      assert PricedWithin(txs, k, low, high);
      CostStep(txs, Totals(init, k), t, k, low, high);
    }
  }

  lemma CostStep(txs: seq<Tx>, a: Acc, t: Tx, k: Key, low: real, high: real)
    requires PricedWithin(txs, k, low, high) && t in txs && Within(a, low, high)
    ensures Within(Add(a, Share(t, k)), low, high)
  {
    if Concerns(t, k) && PricedBuy(t) {
      var q, p := t.quantity, t.price.value;
      assert low * q <= q * p <= high * q;
      assert low * (a.buyQtySum + q) == low * a.buyQtySum + low * q;
      assert high * (a.buyQtySum + q) == high * a.buyQtySum + high * q;
    }
  }

  /**
   * As long as no priced buy has a negative quantity, the average cost lies between the
   * least and the greatest price paid.
   */
  lemma {:induction false} AverageBetweenPrices(txs: seq<Tx>, k: Key, low: real, high: real)
    requires PricedWithin(txs, k, low, high) && Totals(txs, k).buyQtySum > 0.0
    ensures low <= Average(Totals(txs, k)) <= high
  {
    CostWithin(txs, k, low, high);
    var a := Totals(txs, k);
    QuotientWithin(a.buyCostSum, a.buyQtySum, low, high);
  }

  lemma QuotientWithin(x: real, y: real, low: real, high: real)
    requires y > 0.0 && low * y <= x <= high * y
    ensures low <= x / y <= high
  {
    var q := x / y;
    assert q * y == x;
    assert (q - low) * y >= 0.0 && (high - q) * y >= 0.0;
  }

  /** The table accepts negative quantities, and with one the average leaves the price range. */
  lemma NegativeQuantityBreaksAverage(now: int)
    ensures var buy := (q: real, p: real) => Tx("", "p", "s", Buy, q, Some(p), 0.0, "", now, "", None, now);
            var txs := [buy(2.0, 10.0), buy(-1.0, 5.0)];
            Average(Totals(txs, ("p", "s"))) == 15.0
  {
    var a := Tx("", "p", "s", Buy, 2.0, Some(10.0), 0.0, "", now, "", None, now);
    var b := Tx("", "p", "s", Buy, -1.0, Some(5.0), 0.0, "", now, "", None, now);
    var k := ("p", "s");
    assert Share(a, k) == Acc(2.0, 2.0, 20.0) && Share(b, k) == Acc(-1.0, -1.0, -5.0);
    hide Totals, Share, Weight;
    TotalsOfTwo(a, b, k);
  }

  /** The transactions of symbol `k` with other prices for its priced buys, by their place. */
  function Repriced(txs: seq<Tx>, k: Key, price: nat -> real): seq<Tx> {
    if txs == [] then []
    else
      var n := |txs| - 1;
      Repriced(txs[..n], k, price)
      + [if Concerns(txs[n], k) && PricedBuy(txs[n]) then txs[n].(price := Some(price(n))) else txs[n]]
  }

  ghost predicate IsPricedBuyAt(txs: seq<Tx>, k: Key, i: nat) { i < |txs| && Concerns(txs[i], k) && PricedBuy(txs[i]) }

  ghost predicate PricesWithin(txs: seq<Tx>, k: Key, price: nat -> real, low: real, high: real) {
    forall i: nat :: IsPricedBuyAt(txs, k, i) ==> low <= price(i) <= high
  }

  /** Whatever was paid for the buys, if never less than nothing, the average lies between the prices. */
  ghost predicate AverageAlwaysWithin(txs: seq<Tx>, k: Key) {
    forall price: nat -> real, low: real, high: real :: 0.0 <= low && PricesWithin(txs, k, price, low, high) ==>
      low <= Average(Totals(Repriced(txs, k, price), k)) <= high
  }

  ghost predicate NoNegativeBuy(txs: seq<Tx>, k: Key) {
    forall i: nat :: IsPricedBuyAt(txs, k, i) ==> txs[i].quantity >= 0.0
  }

  function RepricedAt(txs: seq<Tx>, k: Key, price: nat -> real, i: nat): Tx
    requires i < |txs|
  {
    if Concerns(txs[i], k) && PricedBuy(txs[i]) then txs[i].(price := Some(price(i))) else txs[i]
  }

  lemma {:induction false} RepricedElements(txs: seq<Tx>, k: Key, price: nat -> real)
    ensures |Repriced(txs, k, price)| == |txs|
    ensures forall i: nat :: i < |txs| ==> Repriced(txs, k, price)[i] == RepricedAt(txs, k, price, i)
  {
    if txs != [] {
      var n := |txs| - 1;
      RepricedElements(txs[..n], k, price);
      assert forall i: nat :: i < n ==> RepricedAt(txs[..n], k, price, i) == RepricedAt(txs, k, price, i);
      assert Repriced(txs, k, price) == Repriced(txs[..n], k, price) + [RepricedAt(txs, k, price, n)];
    }
  }

  lemma {:induction false} RepricedQuantity(txs: seq<Tx>, k: Key, price: nat -> real)
    ensures Totals(Repriced(txs, k, price), k).buyQtySum == Totals(txs, k).buyQtySum
  {
    if txs != [] {
      var n := |txs| - 1;
      var init, last := txs[..n], RepricedAt(txs, k, price, n);
      assert txs == init + [txs[n]] && Repriced(txs, k, price) == Repriced(init, k, price) + [last];
      assert Share(last, k).buyQtySum == Share(txs[n], k).buyQtySum;
      hide Totals, Repriced, Share, RepricedAt;
      RepricedQuantity(init, k, price);
      TotalsSnoc(init, txs[n], k);
      TotalsSnoc(Repriced(init, k, price), last, k);
    }
  }

  /** Repricing keeps the quantities. */
  lemma RepricedKeeps(txs: seq<Tx>, k: Key, price: nat -> real)
    ensures |Repriced(txs, k, price)| == |txs|
    ensures forall i: nat :: i < |txs| ==>
              Repriced(txs, k, price)[i] == if IsPricedBuyAt(txs, k, i) then txs[i].(price := Some(price(i))) else txs[i]
    ensures Totals(Repriced(txs, k, price), k).buyQtySum == Totals(txs, k).buyQtySum
  {
    hide Repriced, Totals;
    RepricedElements(txs, k, price);
    RepricedQuantity(txs, k, price);
  }

  /** One thing for each buy but the one at `n`, which is free: what is paid is what the others bought. */
  function OneButFree(n: nat): nat -> real { i => if i == n then 0.0 else 1.0 }

  /** What one transaction costs at a price of one, or of nothing. */
  lemma ShareAtUnitPrice(t: Tx, k: Key, free: bool)
    ensures var u := if Concerns(t, k) && PricedBuy(t) then t.(price := Some(if free then 0.0 else 1.0)) else t;
            Share(u, k).buyCostSum == if free && Concerns(t, k) && PricedBuy(t) then 0.0 else Share(u, k).buyQtySum
    ensures Concerns(t, k) && PricedBuy(t) ==> Share(t, k).buyQtySum == t.quantity
    ensures !(Concerns(t, k) && PricedBuy(t)) ==> Share(t, k).buyQtySum == 0.0
  {
  }

  lemma {:induction false} CostOfOneButFree(txs: seq<Tx>, k: Key, n: nat)
    ensures var a := Totals(Repriced(txs, k, OneButFree(n)), k);
            a.buyCostSum == a.buyQtySum - (if IsPricedBuyAt(txs, k, n) then txs[n].quantity else 0.0)
  {
    if txs != [] {
      var m := |txs| - 1;
      var init, t, p := txs[..m], txs[m], OneButFree(n);
      var last := if Concerns(t, k) && PricedBuy(t) then t.(price := Some(p(m))) else t;
      assert Repriced(txs, k, p) == Repriced(init, k, p) + [last];
      assert p(m) == if m == n then 0.0 else 1.0;
      assert n < m ==> IsPricedBuyAt(init, k, n) == IsPricedBuyAt(txs, k, n);
      assert Share(last, k).buyQtySum == Share(t, k).buyQtySum;
      ShareAtUnitPrice(t, k, m == n);
      hide Totals, Repriced, Share, Weight;
      CostOfOneButFree(init, k, n);
      TotalsSnoc(Repriced(init, k, p), last, k);
    }
  }

  /** A buy of a negative quantity puts the average above every price, for prices of one and nothing. */
  lemma NegativeBuyBreaksAverage(txs: seq<Tx>, k: Key, n: nat)
    requires IsPricedBuyAt(txs, k, n) && txs[n].quantity < 0.0 && Totals(txs, k).buyQtySum > 0.0
    ensures PricesWithin(txs, k, OneButFree(n), 0.0, 1.0)
    ensures Average(Totals(Repriced(txs, k, OneButFree(n)), k)) > 1.0
  {
    CostOfOneButFree(txs, k, n);
    RepricedKeeps(txs, k, OneButFree(n));
    var a := Totals(Repriced(txs, k, OneButFree(n)), k);
    QuotientAbove(a.buyCostSum, a.buyQtySum);
  }

  lemma QuotientAbove(x: real, y: real)
    requires x > y > 0.0
    ensures x / y > 1.0
  {
    var q := x / y;
    assert q * y == x;
    assert (q - 1.0) * y > 0.0;
  }

  /** Buys at a price of one each: with nothing bought in total the average is nothing. */
  lemma NothingBoughtBreaksAverage(txs: seq<Tx>, k: Key)
    requires Totals(txs, k).buyQtySum <= 0.0
    ensures PricesWithin(txs, k, _ => 1.0, 1.0, 1.0) && Average(Totals(Repriced(txs, k, _ => 1.0), k)) == 0.0
    ensures !AverageAlwaysWithin(txs, k)
  {
    var one: nat -> real := _ => 1.0;
    RepricedKeeps(txs, k, one);
    assert PricesWithin(txs, k, one, 1.0, 1.0) && Average(Totals(Repriced(txs, k, one), k)) == 0.0;
  }

  /** Such a row: nothing is bought, at ten apiece, and a split brings five; they cost nothing on average. */
  lemma EmptyBuyBreaksAverage(now: int)
    ensures var empty := Tx("", "p", "s", Buy, 0.0, Some(10.0), 0.0, "", now, "", None, now);
            var split := Tx("", "p", "s", Split, 5.0, None, 0.0, "", now, "", None, now);
            var txs, k := [empty, split], ("p", "s");
            k in HoldingsOf(txs) && HoldingsOf(txs)[k] == Holding(5.0, 0.0)
  {
    var empty := Tx("", "p", "s", Buy, 0.0, Some(10.0), 0.0, "", now, "", None, now);
    var split := Tx("", "p", "s", Split, 5.0, None, 0.0, "", now, "", None, now);
    var k := ("p", "s");
    assert Share(empty, k) == Zero && Share(split, k) == Acc(5.0, 0.0, 0.0);
    hide Totals, Share, Weight, HoldingsOf;
    TotalsOfTwo(empty, split, k);
    RowIffPositive([empty, split], k);
  }

  /**
   * For which quantities the average lies between the prices, whatever these are: exactly
   * for those with a positive sum over the priced buys, and without a negative one among them.
   */
  lemma {:induction false} AverageWithinIff(txs: seq<Tx>, k: Key)
    ensures AverageAlwaysWithin(txs, k) <==> NoNegativeBuy(txs, k) && Totals(txs, k).buyQtySum > 0.0
  {
    hide Totals;
    if Totals(txs, k).buyQtySum <= 0.0 {
      NothingBoughtBreaksAverage(txs, k);
    } else {
      WithinIfBought(txs, k);
    }
  }

  lemma {:induction false} WithinIfBought(txs: seq<Tx>, k: Key)
    requires Totals(txs, k).buyQtySum > 0.0
    ensures AverageAlwaysWithin(txs, k) <==> NoNegativeBuy(txs, k)
  {
    if AverageAlwaysWithin(txs, k) {
      forall i: nat | IsPricedBuyAt(txs, k, i) ensures txs[i].quantity >= 0.0 {
        if txs[i].quantity < 0.0 {
          NegativeBuyBreaksAverage(txs, k, i);
        }
      }
    }
    if NoNegativeBuy(txs, k) {
      forall price: nat -> real, low: real, high: real | 0.0 <= low && PricesWithin(txs, k, price, low, high)
        ensures low <= Average(Totals(Repriced(txs, k, price), k)) <= high
      {
        RepricedWithin(txs, k, price, low, high);
      }
    }
  }

  lemma RepricedWithin(txs: seq<Tx>, k: Key, price: nat -> real, low: real, high: real)
    requires Totals(txs, k).buyQtySum > 0.0 && NoNegativeBuy(txs, k) && PricesWithin(txs, k, price, low, high)
    ensures low <= Average(Totals(Repriced(txs, k, price), k)) <= high
  {
    RepricedKeeps(txs, k, price);
    var r := Repriced(txs, k, price);
    hide Totals, Repriced;
    forall t | t in r && Concerns(t, k) && PricedBuy(t) ensures low <= t.price.value <= high && t.quantity >= 0.0 {
      var i: nat :| i < |r| && r[i] == t;
      assert IsPricedBuyAt(txs, k, i);
    }
    AverageBetweenPrices(r, k, low, high);
  }

  /** What is sold, split or received does not move the average of a symbol; only priced buys do. */
  lemma OnlyPricedBuysMoveTheAverage(a: seq<Tx>, t: Tx, b: seq<Tx>, k: Key)
    requires !PricedBuy(t)
    ensures Average(Totals(a + [t] + b, k)) == Average(Totals(a + b, k))
  {
    TotalsMiddle(a, t, b, k);
  }

  // ----- The rows of one portfolio, in the order of the query ---------------------------------

  predicate NotAfter(a: Tx, b: Tx) {
    a.executedAt < b.executedAt || (a.executedAt == b.executedAt && a.createdAt <= b.createdAt)
  }

  function Insert(t: Tx, rows: seq<Tx>): seq<Tx> {
    if rows == [] then [t]
    else if NotAfter(rows[|rows| - 1], t) then rows + [t]
    else Insert(t, rows[..|rows| - 1]) + [rows[|rows| - 1]]
  }

  function Select(txs: seq<Tx>, portfolio: string): seq<Tx> {
    if txs == [] then []
    else
      var last := txs[|txs| - 1];
      var rest := Select(txs[..|txs| - 1], portfolio);
      if last.portfolio == portfolio then Insert(last, rest) else rest
  }

  lemma {:induction false} InsertAt(t: Tx, rows: seq<Tx>) returns (i: nat)
    ensures i <= |rows| && Insert(t, rows) == rows[..i] + [t] + rows[i..]
  {
    i := |rows|;
    if rows != [] && !NotAfter(rows[|rows| - 1], t) {
      i := InsertAt(t, rows[..|rows| - 1]);
    }
  }

  lemma TotalsInsert(t: Tx, rows: seq<Tx>, k: Key)
    ensures Totals(Insert(t, rows), k) == Add(Totals(rows, k), Share(t, k))
  {
    var i := InsertAt(t, rows);
    hide Insert, Totals, Share;
    TotalsMiddle(rows[..i], t, rows[i..], k);
    assert rows == rows[..i] + rows[i..];
  }

  lemma {:induction false} TotalsSelect(txs: seq<Tx>, portfolio: string, symbol: string)
    ensures Totals(Select(txs, portfolio), (portfolio, symbol)) == Totals(txs, (portfolio, symbol))
  {
    hide Totals, Insert, Weight;
    if txs != [] {
      var last, init := txs[|txs| - 1], txs[..|txs| - 1];
      var k := (portfolio, symbol);
      assert txs == init + [last];
      TotalsSelect(init, portfolio, symbol);
      TotalsInsert(last, Select(init, portfolio), k);
      TotalsSnoc(init, last, k);
    }
  }

  lemma {:induction false} SelectedRows(txs: seq<Tx>, portfolio: string)
    ensures forall t :: t in Select(txs, portfolio) <==> t in txs && t.portfolio == portfolio
  {
    if txs != [] {
      var last, init := txs[|txs| - 1], txs[..|txs| - 1];
      SelectedRows(init, portfolio);
      InsertedRows(last, Select(init, portfolio));
      assert txs == init + [last];
    }
  }

  lemma {:induction false} InsertedRows(t: Tx, rows: seq<Tx>)
    ensures forall u :: u in Insert(t, rows) <==> u == t || u in rows
  {
    if rows != [] && !NotAfter(rows[|rows| - 1], t) {
      InsertedRows(t, rows[..|rows| - 1]);
      assert rows == rows[..|rows| - 1] + [rows[|rows| - 1]];
    }
  }

  // ----- The two tables ---------------------------------------------------------------------

  datatype Patch = Patch(portfolio: Option<string>, symbol: Option<string>, action: Option<Action>,
                         quantity: Option<real>, price: Option<Option<real>>, fee: Option<real>,
                         currency: Option<string>, executedAt: Option<int>, source: Option<string>,
                         note: Option<Option<string>>)

  const NoChange := Patch(None, None, None, None, None, None, None, None, None, None)

  function Patched(t: Tx, p: Patch): Tx {
    Tx(t.id, OrElse(p.portfolio, t.portfolio), OrElse(p.symbol, t.symbol), OrElse(p.action, t.action), OrElse(p.quantity, t.quantity),
       OrElse(p.price, t.price), OrElse(p.fee, t.fee), OrElse(p.currency, t.currency), OrElse(p.executedAt, t.executedAt),
       OrElse(p.source, t.source), OrElse(p.note, t.note), t.createdAt)
  }

  function IndexOf(txs: seq<Tx>, id: string): (i: Option<nat>)
    ensures i.Some? ==> i.value < |txs| && txs[i.value].id == id
    ensures i.None? ==> forall t :: t in txs ==> t.id != id
  {
    if txs == [] then None
    else if txs[|txs| - 1].id == id then Some(|txs| - 1)
    else IndexOf(txs[..|txs| - 1], id)
  }

  datatype Value = Value(txs: seq<Tx>, holdings: map<Key, Holding>)

  function Refresh(v: Value, portfolio: string): Value {
    v.(holdings := Recomputed(v.holdings, v.txs, portfolio))
  }

  function DoAdd(v: Value, t: Tx): Value { Refresh(v.(txs := v.txs + [t]), t.portfolio) }

  function DoUpdate(v: Value, id: string, p: Patch): (Value, Option<Tx>) {
    var i := IndexOf(v.txs, id);
    if i.None? then (v, None)
    else
      var t := v.txs[i.value];
      if p == NoChange then (v, Some(t))
      else
        var w := Refresh(v.(txs := v.txs[i.value := Patched(t, p)]), t.portfolio);
        (if p.portfolio.Some? && p.portfolio.value != t.portfolio then Refresh(w, p.portfolio.value) else w,
         Some(Patched(t, p)))
  }

  function DoDelete(v: Value, id: string): (Value, bool) {
    var i := IndexOf(v.txs, id);
    if i.None? then (v, false)
    else (Refresh(v.(txs := v.txs[..i.value] + v.txs[i.value + 1..]), v.txs[i.value].portfolio), true)
  }

  /** The rows of a portfolio in `h` are those of its accumulated symbols; the others are those of `base`. */
  ghost predicate Upserted(base: map<Key, Holding>, h: map<Key, Holding>, portfolio: string, symbols: seq<string>,
                           accs: map<string, Acc>)
  {
    && (forall k: Key :: k.0 != portfolio ==> (k in h <==> k in base) && (k in base ==> h[k] == base[k]))
    && (forall s :: (portfolio, s) in h <==> s in symbols && s in accs && accs[s].qty > 0.0)
    && (forall s :: (portfolio, s) in h ==> h[(portfolio, s)] == HoldingOf(accs[s]))
  }

  lemma UpsertedIsRecomputed(before: map<Key, Holding>, h: map<Key, Holding>, txs: seq<Tx>, portfolio: string,
                             symbols: seq<string>, accs: map<string, Acc>)
    requires forall s :: s in symbols <==> s in accs
    requires forall s :: GetOr(accs, s, Zero) == Totals(Select(txs, portfolio), (portfolio, s))
    requires Upserted((map k | k in before && k.0 != portfolio :: before[k]), h, portfolio, symbols, accs)
    ensures h == Recomputed(before, txs, portfolio)
  {
    forall k: Key ensures (k in h <==> k in Recomputed(before, txs, portfolio))
                       && (k in h ==> h[k] == Recomputed(before, txs, portfolio)[k]) {
      hide Totals, Select, Average;
      if k.0 == portfolio {
        TotalsSelect(txs, portfolio, k.1);
        assert k == (portfolio, k.1);
        if k !in KeysOf(txs) {
          TotalsAbsent(txs, k);
        }
        assert GetOr(accs, k.1, Zero) == Totals(txs, k);
      }
    }
  }

  lemma AccumulateOne(portfolio: string, rows: seq<Tx>, i: nat, before: map<string, Acc>, after: map<string, Acc>)
    requires i < |rows| && rows[i].portfolio == portfolio
    requires forall s :: GetOr(before, s, Zero) == Totals(rows[..i], (portfolio, s))
    requires after == before[rows[i].symbol := Add(GetOr(before, rows[i].symbol, Zero), Weight(rows[i]))]
    ensures forall s :: GetOr(after, s, Zero) == Totals(rows[..i + 1], (portfolio, s))
  {
    hide Totals, Weight;
    assert rows[..i + 1] == rows[..i] + [rows[i]];
    forall s ensures GetOr(after, s, Zero) == Totals(rows[..i + 1], (portfolio, s)) {
      TotalsSnoc(rows[..i], rows[i], (portfolio, s));
      assert GetOr(before, s, Zero) == Totals(rows[..i], (portfolio, s));
    }
  }

  class TransactionStore {
    var transactions: seq<Tx>
    var holdings: map<Key, Holding>

    function Contents(): Value
      reads this
    {
      Value(transactions, holdings)
    }

    constructor ()
      ensures Contents() == Value([], map[])
    {
      transactions, holdings := [], map[];
    }

    /** The `switch` over the action. */
    method AddTo(before: Acc, r: Tx) returns (acc: Acc)
      ensures acc == Add(before, Weight(r))
    {
      acc := before;
      match r.action {
        case Buy =>
          acc := acc.(qty := acc.qty + r.quantity);
          if r.price.Some? {
            acc := acc.(buyQtySum := acc.buyQtySum + r.quantity,
                        buyCostSum := acc.buyCostSum + r.quantity * r.price.value);
          }
        case Sell => acc := acc.(qty := acc.qty - r.quantity);
        case Split => acc := acc.(qty := acc.qty + r.quantity);
        case Dividend =>
        case Fee =>
      }
    }

    /** The accumulators of `recomputeHoldings`, with the insertion order of its Map. */
    method Accumulate(portfolio: string, rows: seq<Tx>) returns (symbols: seq<string>, accs: map<string, Acc>)
      requires forall t :: t in rows ==> t.portfolio == portfolio
      ensures forall s :: s in symbols <==> s in accs
      ensures forall s :: GetOr(accs, s, Zero) == Totals(rows, (portfolio, s))
    {
      symbols, accs := [], map[];
      assert forall k :: Totals(rows[..0], k) == Zero;
      hide Totals, Weight, Add;
      for i := 0 to |rows|
        invariant forall s :: s in symbols <==> s in accs
        invariant forall s :: GetOr(accs, s, Zero) == Totals(rows[..i], (portfolio, s))
      {
        var r := rows[i];
        var acc := GetOr(accs, r.symbol, Zero);
        ghost var before := accs;
        acc := AddTo(acc, r);
        if r.symbol !in accs {
          symbols := symbols + [r.symbol];
        }
        accs := accs[r.symbol := acc];
        AccumulateOne(portfolio, rows, i, before, accs);
      }
      assert rows[..|rows|] == rows;
    }

    method RecomputeHoldings(portfolio: string)
      modifies this`holdings
      ensures holdings == Recomputed(old(holdings), transactions, portfolio)
    {
      ghost var before := holdings;
      holdings := map k | k in holdings && k.0 != portfolio :: holdings[k];
      var rows := Select(transactions, portfolio);
      SelectedRows(transactions, portfolio);
      var symbols, accs := Accumulate(portfolio, rows);
      Upsert(portfolio, symbols, accs);
      UpsertedIsRecomputed(before, holdings, transactions, portfolio, symbols, accs);
    }

    method Upsert(portfolio: string, symbols: seq<string>, accs: map<string, Acc>)
      requires forall s :: s in symbols <==> s in accs
      requires forall k :: k in holdings ==> k.0 != portfolio
      modifies this`holdings
      ensures Upserted(old(holdings), holdings, portfolio, symbols, accs)
    {
      for i := 0 to |symbols|
        invariant Upserted(old(holdings), holdings, portfolio, symbols[..i], accs)
      {
        assert symbols[..i + 1] == symbols[..i] + [symbols[i]];
        var acc := accs[symbols[i]];
        if acc.qty <= 0.0 {
          continue;
        }
        var avgCost := if acc.buyQtySum > 0.0 then acc.buyCostSum / acc.buyQtySum else 0.0;
        holdings := holdings[(portfolio, symbols[i]) := Holding(acc.qty, avgCost)];
      }
      assert symbols[..|symbols|] == symbols;
    }

    method AddTransaction(t: Tx)
      modifies this
      ensures Contents() == DoAdd(old(Contents()), t)
    {
      transactions := transactions + [t];
      RecomputeHoldings(t.portfolio);
    }

    method UpdateTransaction(id: string, partial: Patch) returns (r: Option<Tx>)
      modifies this
      ensures (Contents(), r) == DoUpdate(old(Contents()), id, partial)
    {
      var i := IndexOf(transactions, id);
      if i.None? {
        return None;
      }
      var existing := transactions[i.value];
      if partial == NoChange {
        return Some(existing);
      }
      transactions := transactions[i.value := Patched(existing, partial)];
      var affected := [existing.portfolio];
      if partial.portfolio.Some? && partial.portfolio.value !in affected {
        affected := affected + [partial.portfolio.value];
      }
      RecomputeHoldings(affected[0]);
      if |affected| == 2 {
        RecomputeHoldings(affected[1]);
      }
      r := Some(transactions[i.value]);
    }

    method DeleteTransaction(id: string) returns (r: bool)
      modifies this
      ensures (Contents(), r) == DoDelete(old(Contents()), id)
    {
      var i := IndexOf(transactions, id);
      if i.None? {
        return false;
      }
      var existing := transactions[i.value];
      transactions := transactions[..i.value] + transactions[i.value + 1..];
      RecomputeHoldings(existing.portfolio);
      r := true;
    }
  }

  // ----- Which rows change ----------------------------------------------------------------------

  /** The id is the primary key of the table. */
  ghost predicate DistinctIds(txs: seq<Tx>) { forall i, j :: 0 <= i < j < |txs| ==> txs[i].id != txs[j].id }

  ghost predicate Has(txs: seq<Tx>, id: string) { exists t: Tx :: t in txs && t.id == id }

  ghost predicate ColumnsHold(after: Tx, p: Patch, before: Tx) {
    && after.id == before.id && after.createdAt == before.createdAt
    && Holds(after.portfolio, p.portfolio, before.portfolio) && Holds(after.symbol, p.symbol, before.symbol)
    && Holds(after.action, p.action, before.action) && Holds(after.quantity, p.quantity, before.quantity)
    && Holds(after.price, p.price, before.price) && Holds(after.fee, p.fee, before.fee)
    && Holds(after.currency, p.currency, before.currency) && Holds(after.executedAt, p.executedAt, before.executedAt)
    && Holds(after.source, p.source, before.source) && Holds(after.note, p.note, before.note)
  }

  /** An update sets the given columns of the row with the id, and answers with the row as it then is; no other row changes. */
  lemma UpdateSetsColumns(v: Value, id: string, p: Patch)
    requires DistinctIds(v.txs)
    ensures var (w, r) := DoUpdate(v, id, p);
            && |w.txs| == |v.txs| && (r.Some? <==> Has(v.txs, id)) && DistinctIds(w.txs)
            && forall i :: 0 <= i < |v.txs| ==>
                 if v.txs[i].id == id then ColumnsHold(w.txs[i], p, v.txs[i]) && r == Some(w.txs[i]) else w.txs[i] == v.txs[i]
  {
    hide Refresh;
    TransactionsStay(v, id, p);
    var i := IndexOf(v.txs, id);
    if i.Some? {
      assert Patched(v.txs[i.value], NoChange) == v.txs[i.value];
    }
  }

  /** Recomputing holdings leaves the transactions alone. */
  lemma TransactionsStay(v: Value, id: string, p: Patch)
    ensures var i := IndexOf(v.txs, id);
            DoUpdate(v, id, p).0.txs == if i.None? || p == NoChange then v.txs else v.txs[i.value := Patched(v.txs[i.value], p)]
  {
    hide Recomputed;
  }

  /** A delete removes the row with the id, if there is one, and keeps all others. */
  lemma DeleteRemovesRow(v: Value, id: string)
    requires DistinctIds(v.txs)
    ensures var (w, found) := DoDelete(v, id);
            && (found <==> Has(v.txs, id)) && |w.txs| == |v.txs| - (if found then 1 else 0)
            && (forall t :: t in w.txs <==> t in v.txs && t.id != id)
  {
    hide Recomputed;
    var i := IndexOf(v.txs, id);
    if i.Some? {
      var a, b := v.txs[..i.value], v.txs[i.value + 1..];
      assert v.txs == a + [v.txs[i.value]] + b;
      forall t: Tx | t in a + b ensures t.id != id {
        var j :| 0 <= j < |a + b| && (a + b)[j] == t;
        assert t == if j < i.value then v.txs[j] else v.txs[j + 1];
      }
    }
  }

  // ----- Every run ----------------------------------------------------------------------------

  datatype Op = AddOp(t: Tx) | UpdateOp(id: string, patch: Patch) | DeleteOp(id: string)

  function Step(v: Value, op: Op): Value {
    match op
    case AddOp(t) => DoAdd(v, t)
    case UpdateOp(id, patch) => DoUpdate(v, id, patch).0
    case DeleteOp(id) => DoDelete(v, id).0
  }

  function Run(v: Value, ops: seq<Op>): Value
    decreases |ops|
  {
    if ops == [] then v else Run(Step(v, ops[0]), ops[1..])
  }

  ghost predicate Consistent(v: Value) { v.holdings == HoldingsOf(v.txs) }

  /** The holdings of every portfolio but those in `stale` are as they should be. */
  ghost predicate ConsistentBut(v: Value, stale: set<string>) {
    forall k: Key :: k.0 !in stale ==>
      (k in v.holdings <==> Totals(v.txs, k).qty > 0.0)
      && (k in v.holdings ==> v.holdings[k] == HoldingOf(Totals(v.txs, k)))
  }

  lemma ConsistentMeans(v: Value)
    ensures Consistent(v) <==> ConsistentBut(v, {})
  {
    forall k: Key ensures (k in HoldingsOf(v.txs) <==> Totals(v.txs, k).qty > 0.0)
                       && (k in HoldingsOf(v.txs) ==> HoldingsOf(v.txs)[k] == HoldingOf(Totals(v.txs, k))) {
      RowIffPositive(v.txs, k);
    }
  }

  lemma RefreshRepairs(v: Value, stale: set<string>, portfolio: string)
    requires ConsistentBut(v, stale)
    ensures ConsistentBut(Refresh(v, portfolio), stale - {portfolio})
  {
    var w := Refresh(v, portfolio);
    forall k: Key | k.0 !in stale - {portfolio}
      ensures (k in w.holdings <==> Totals(w.txs, k).qty > 0.0)
           && (k in w.holdings ==> w.holdings[k] == HoldingOf(Totals(w.txs, k))) {
      if k.0 == portfolio && k !in KeysOf(v.txs) {
        TotalsAbsent(v.txs, k);
      }
    }
  }

  /** Changing, adding or removing one transaction makes only its portfolios stale. */
  lemma ReplaceMakesStale(a: seq<Tx>, before: seq<Tx>, new_: seq<Tx>, b: seq<Tx>, h: map<Key, Holding>)
    requires |before| <= 1 && |new_| <= 1 && ConsistentBut(Value(a + before + b, h), {})
    ensures ConsistentBut(Value(a + new_ + b, h), (set t | t in before + new_ :: t.portfolio))
  {
    var stale := set t | t in before + new_ :: t.portfolio;
    forall k: Key | k.0 !in stale ensures Totals(a + new_ + b, k) == Totals(a + before + b, k) {
      WithoutEffect(a, before, b, k);
      WithoutEffect(a, new_, b, k);
    }
  }

  lemma WithoutEffect(a: seq<Tx>, mid: seq<Tx>, b: seq<Tx>, k: Key)
    requires |mid| <= 1 && forall t :: t in mid ==> t.portfolio != k.0
    ensures Totals(a + mid + b, k) == Totals(a + b, k)
  {
    if mid == [] {
      assert a + mid + b == a + b;
    } else {
      assert mid == [mid[0]] && mid[0] in mid;
      TotalsMiddle(a, mid[0], b, k);
    }
  }

  lemma StepKeepsConsistent(v: Value, op: Op)
    requires ConsistentBut(v, {})
    ensures ConsistentBut(Step(v, op), {})
  {
    hide ConsistentBut;
    match op
    case AddOp(t) => AddKeepsConsistent(v, t);
    case DeleteOp(id) => DeleteKeepsConsistent(v, id);
    case UpdateOp(id, patch) => UpdateKeepsConsistent(v, id, patch);
  }

  lemma AddKeepsConsistent(v: Value, t: Tx)
    requires ConsistentBut(v, {})
    ensures ConsistentBut(DoAdd(v, t), {})
  {
    hide ConsistentBut, Recomputed;
    assert v.txs == v.txs + [] + [] && v.txs + [t] == v.txs + [t] + [];
    ReplaceMakesStale(v.txs, [], [t], [], v.holdings);
    assert (set u | u in [] + [t] :: u.portfolio) == {t.portfolio};
    RefreshRepairs(v.(txs := v.txs + [t]), {t.portfolio}, t.portfolio);
    assert {t.portfolio} - {t.portfolio} == {};
  }

  lemma DeleteKeepsConsistent(v: Value, id: string)
    requires ConsistentBut(v, {})
    ensures ConsistentBut(DoDelete(v, id).0, {})
  {
    hide ConsistentBut, Recomputed;
    var i := IndexOf(v.txs, id);
    if i.Some? {
      var a, t, b := v.txs[..i.value], v.txs[i.value], v.txs[i.value + 1..];
      assert v.txs == a + [t] + b && a + b == a + [] + b;
      ReplaceMakesStale(a, [t], [], b, v.holdings);
      assert (set u | u in [t] + [] :: u.portfolio) == {t.portfolio};
      RefreshRepairs(v.(txs := a + b), {t.portfolio}, t.portfolio);
      assert {t.portfolio} - {t.portfolio} == {};
    }
  }

  lemma UpdateKeepsConsistent(v: Value, id: string, patch: Patch)
    requires ConsistentBut(v, {})
    ensures ConsistentBut(DoUpdate(v, id, patch).0, {})
  {
    hide ConsistentBut, Recomputed;
    var i := IndexOf(v.txs, id);
    if i.Some? && patch != NoChange {
      var a, t, b := v.txs[..i.value], v.txs[i.value], v.txs[i.value + 1..];
      var u := Patched(t, patch);
      assert v.txs == a + [t] + b && v.txs[i.value := u] == a + [u] + b;
      ReplaceMakesStale(a, [t], [u], b, v.holdings);
      assert (set x | x in [t] + [u] :: x.portfolio) == {t.portfolio, u.portfolio};
      var w := v.(txs := v.txs[i.value := u]);
      RefreshRepairs(w, {t.portfolio, u.portfolio}, t.portfolio);
      if u.portfolio != t.portfolio {
        assert {t.portfolio, u.portfolio} - {t.portfolio} == {u.portfolio};
        RefreshRepairs(Refresh(w, t.portfolio), {u.portfolio}, u.portfolio);
        assert {u.portfolio} - {u.portfolio} == {};
      } else {
        assert {t.portfolio, u.portfolio} - {t.portfolio} == {};
      }
    }
  }

  /**
   * Starting consistent, after any adds, updates (moves between portfolios included) and
   * deletes the holdings table is the one that belongs to the transactions.
   */
  lemma {:induction false} HoldingsAreDerived(v: Value, ops: seq<Op>)
    requires Consistent(v)
    ensures Consistent(Run(v, ops))
    decreases |ops|
  {
    if ops != [] {
      ConsistentMeans(v);
      StepKeepsConsistent(v, ops[0]);
      ConsistentMeans(Step(v, ops[0]));
      HoldingsAreDerived(Step(v, ops[0]), ops[1..]);
    }
  }

  lemma DeleteFindsAdded(v: Value, t: Tx)
    ensures var (w, found) := DoDelete(DoAdd(v, t), t.id); found && w.txs == v.txs
  {
    hide Recomputed;
    var txs := v.txs + [t];
    assert IndexOf(txs, t.id) == Some(|v.txs|);
    assert txs[..|v.txs|] + txs[|v.txs| + 1..] == v.txs;
  }

  /** Deleting what was just added gives back both tables. */
  lemma {:induction false} DeleteUndoesAdd(v: Value, t: Tx)
    requires Consistent(v)
    ensures DoDelete(DoAdd(v, t), t.id) == (v, true)
  {
    hide ConsistentBut, DoAdd, DoDelete, HoldingsOf;
    var w := DoAdd(v, t);
    DeleteFindsAdded(v, t);
    ConsistentMeans(v);
    AddKeepsConsistent(v, t);
    DeleteKeepsConsistent(w, t.id);
    ConsistentMeans(DoDelete(w, t.id).0);
  }
}
