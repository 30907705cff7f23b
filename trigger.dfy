/** When a cycle runs. main.cjs checks every 20 minutes whether its own sell
    side is empty or drifted too far above the market; main.js counts hourly
    ticks and runs every `everyXHours`-th one. */
module Trigger {
  import opened Snapshot

  datatype Side = Buy | Sell

  /** An open order of the pair, as `openOrders` lists it. */
  datatype OpenOrder = OpenOrder(side: Side, price: real)

  /** The prices of the open SELL orders, in listing order. */
  function SellPrices(orders: seq<OpenOrder>): (prices: seq<real>)
    ensures |prices| <= |orders|
    ensures forall i :: 0 <= i < |orders| && orders[i].side == Sell ==> orders[i].price in prices
    ensures forall p :: p in prices ==> exists i :: 0 <= i < |orders| && orders[i].side == Sell && orders[i].price == p
  {
    if orders == [] then []
    else
      var rest := SellPrices(orders[1..]);
      assert forall i :: 1 <= i < |orders| ==> orders[i] == orders[1..][i - 1];
      if orders[0].side == Sell then [orders[0].price] + rest else rest
  }

  /** The least element of a non-empty sequence. */
  function MinOf(s: seq<real>): (m: real)
    requires |s| > 0
    ensures m in s
    ensures forall k :: 0 <= k < |s| ==> m <= s[k]
  {
    if |s| == 1 then s[0]
    else
      var m := MinOf(s[..|s| - 1]);
      assert forall k :: 0 <= k < |s| - 1 ==> s[..|s| - 1][k] == s[k];
      if s[|s| - 1] < m then s[|s| - 1] else m
  }

  /** A lower bound that belongs to the sequence is its minimum. */
  lemma MinOfUnique(s: seq<real>, m: real)
    requires m in s && forall k :: 0 <= k < |s| ==> m <= s[k]
    ensures MinOf(s) == m
  {
  }

  /** The `forEach` loop that finds the lowest own sell price. */
  method LowestSellPrice(prices: seq<real>) returns (minOrderPrice: real)
    requires |prices| > 0
    ensures minOrderPrice == MinOf(prices)
  {
    minOrderPrice := prices[0];
    var i := 0;
    while i < |prices|
      invariant 0 <= i <= |prices|
      invariant minOrderPrice in prices
      invariant minOrderPrice <= prices[0]
      invariant forall k :: 0 <= k < i ==> minOrderPrice <= prices[k]
    {
      if prices[i] < minOrderPrice {
        minOrderPrice := prices[i];
      }
      i := i + 1;
    }
    MinOfUnique(prices, minOrderPrice);
  }

  /** The percentage by which a sell price lies above the best ask. */
  function SpreadPercent(price: real, lowestAsk: real): real
    requires lowestAsk > 0.0
  {
    (price / lowestAsk - 1.0) * 100.0
  }

  /** The book-aware decision: run when no SELL order is open, or when the
      lowest one lies more than `sellSpreadMax` percent above the best ask. */
  predicate ShouldRun(orders: seq<OpenOrder>, lowestAsk: real, sellSpreadMax: real)
    requires lowestAsk > 0.0
  {
    var prices := SellPrices(orders);
    |prices| == 0 || SpreadPercent(MinOf(prices), lowestAsk) > sellSpreadMax
  }

  /** The spread grows with the sell price. */
  lemma SpreadMonotone(p: real, q: real, lowestAsk: real)
    requires lowestAsk > 0.0 && p <= q
    ensures SpreadPercent(p, lowestAsk) <= SpreadPercent(q, lowestAsk)
  {
    Decimal.DivMonotone(p, q, lowestAsk);
  }

  /** The decision without the minimum: a cycle runs exactly when there is no
      open SELL order or every open SELL order is too far above the best ask. */
  lemma ShouldRunIff(orders: seq<OpenOrder>, lowestAsk: real, sellSpreadMax: real)
    requires lowestAsk > 0.0
    ensures ShouldRun(orders, lowestAsk, sellSpreadMax) <==>
            forall i :: 0 <= i < |orders| && orders[i].side == Sell ==>
              SpreadPercent(orders[i].price, lowestAsk) > sellSpreadMax
  {
    var prices := SellPrices(orders);
    if |prices| > 0 {
      var m := MinOf(prices);
      if SpreadPercent(m, lowestAsk) > sellSpreadMax {
        forall i | 0 <= i < |orders| && orders[i].side == Sell
          ensures SpreadPercent(orders[i].price, lowestAsk) > sellSpreadMax
        {
          var k :| 0 <= k < |prices| && prices[k] == orders[i].price;
          SpreadMonotone(m, orders[i].price, lowestAsk);
        }
      } else {
        var i :| 0 <= i < |orders| && orders[i].side == Sell && orders[i].price == m;
      }
    }
  }

  /** Orders other than SELL orders never change the decision: a BUY order
      inserted at any position of the listing leaves it as it was. */
  lemma BuyOrdersIgnored(orders: seq<OpenOrder>, k: nat, price: real, lowestAsk: real, sellSpreadMax: real)
    requires lowestAsk > 0.0 && k <= |orders|
    ensures ShouldRun(orders[..k] + [OpenOrder(Buy, price)] + orders[k..], lowestAsk, sellSpreadMax)
        == ShouldRun(orders, lowestAsk, sellSpreadMax)
  {
    var ext := orders[..k] + [OpenOrder(Buy, price)] + orders[k..];
    assert |ext| == |orders| + 1;
    assert forall i :: 0 <= i < k ==> ext[i] == orders[i];
    assert ext[k].side == Buy;
    assert forall i :: k < i < |ext| ==> ext[i] == orders[i - 1];
    ShouldRunIff(ext, lowestAsk, sellSpreadMax);
    ShouldRunIff(orders, lowestAsk, sellSpreadMax);
    if ShouldRun(ext, lowestAsk, sellSpreadMax) {
      forall j | 0 <= j < |orders| && orders[j].side == Sell
        ensures SpreadPercent(orders[j].price, lowestAsk) > sellSpreadMax
      {
        var i := if j < k then j else j + 1;
        assert ext[i] == orders[j];
      }
    }
    if ShouldRun(orders, lowestAsk, sellSpreadMax) {
      forall i | 0 <= i < |ext| && ext[i].side == Sell
        ensures SpreadPercent(ext[i].price, lowestAsk) > sellSpreadMax
      {
        if i < k {
          assert ext[i] == orders[i];
        } else {
          assert ext[i] == orders[i - 1];
        }
      }
    }
  }

  /** A concrete decision: own sells at 10.05 and 10.10 lie 0.5% above a
      best ask of 10.00, more than a 0.3% limit, so a cycle runs; against a
      best ask of 10.04 the lowest lies only about 0.1% above, so none does. */
  lemma SpreadExample()
    ensures ShouldRun([OpenOrder(Sell, 10.05), OpenOrder(Sell, 10.10)], 10.00, 0.3)
    ensures !ShouldRun([OpenOrder(Sell, 10.05), OpenOrder(Sell, 10.10)], 10.04, 0.3)
  {
    var orders := [OpenOrder(Sell, 10.05), OpenOrder(Sell, 10.10)];
    assert orders[1..] == [OpenOrder(Sell, 10.10)];
    assert orders[1..][1..] == [];
    assert SellPrices(orders) == [10.05, 10.10];
    assert [10.05, 10.10][..1] == [10.05];
    assert MinOf([10.05, 10.10]) == 10.05;
  }

  /** What `checkForEmptySellSide` reads: the open orders and the book, or a
      failure of either read. */
  datatype SellSideRead =
    | ReadFailed
    | Read(orders: seq<OpenOrder>, book: Book)

  /** `checkForEmptySellSide`: whether this tick runs a cycle. A failed read
      runs nothing. */
  method CheckForEmptySellSide(read: SellSideRead, sellSpreadMax: real) returns (run: bool)
    requires read.Read? ==> read.book.lowestAsk > 0.0
    ensures run <==> read.Read? && ShouldRun(read.orders, read.book.lowestAsk, sellSpreadMax)
  {
    if read.ReadFailed? {
      return false;
    }
    var sellOrders := SellPrices(read.orders);
    if |sellOrders| == 0 {
      run := true;
    } else {
      var minOrderPrice := LowestSellPrice(sellOrders);
      var percentDifference := (minOrderPrice / read.book.lowestAsk - 1.0) * 100.0;
      run := percentDifference > sellSpreadMax;
    }
  }

  /** Whether main.js's cron callback runs a cycle at counter value i. `i % 0`
      is NaN in JavaScript, so a zero `everyXHours` never fires. */
  predicate Fires(everyXHours: nat, i: nat)
  {
    everyXHours > 0 && i % everyXHours == 0
  }

  /** The counter after one tick. */
  function NextCounter(everyXHours: nat, i: nat): nat
  {
    if Fires(everyXHours, i) then 1 else i + 1
  }

  /** The counter after k ticks from its initial value 1. */
  function CounterAfter(everyXHours: nat, k: nat): nat
  {
    if k == 0 then 1 else NextCounter(everyXHours, CounterAfter(everyXHours, k - 1))
  }

  /** Whether the k-th tick (counting from 1) runs a cycle. */
  predicate FiresOnTick(everyXHours: nat, k: nat)
    requires k >= 1
  {
    Fires(everyXHours, CounterAfter(everyXHours, k - 1))
  }

  /** a * b >= b for positive a and b. */
  lemma MulAtLeast(a: int, b: int)
    requires a >= 1 && b >= 1
    ensures a * b >= b
  {
  }

  /** Euclidean remainders are unique. */
  lemma ModUnique(n: int, m: int, q: int, r: int)
    requires m >= 1 && 0 <= r < m && n == q * m + r
    ensures n % m == r
  {
    var q', r' := n / m, n % m;
    assert n == q' * m + r';
    if q > q' {
      assert (q - q') * m == q * m - q' * m;
      MulAtLeast(q - q', m);
    } else if q < q' {
      assert (q' - q) * m == q' * m - q * m;
      MulAtLeast(q' - q, m);
    }
  }

  /** The remainder of a successor. */
  lemma ModSucc(n: nat, m: nat)
    requires m >= 1
    ensures (n + 1) % m == if n % m == m - 1 then 0 else n % m + 1
  {
    var q, r := n / m, n % m;
    assert n == q * m + r;
    if r == m - 1 {
      assert n + 1 == (q + 1) * m + 0;
      ModUnique(n + 1, m, q + 1, 0);
    } else {
      ModUnique(n + 1, m, q, r + 1);
    }
  }

  /** In [1, everyXHours] the counter fires only at everyXHours. */
  lemma FiresInRange(everyXHours: nat, i: nat)
    requires 1 <= i <= everyXHours
    ensures Fires(everyXHours, i) <==> i == everyXHours
  {
    if i == everyXHours {
      ModUnique(i, everyXHours, 1, 0);
    } else {
      ModUnique(i, everyXHours, 0, i);
    }
  }

  /** The counter after k ticks is k mod everyXHours, plus one; so it stays
      in [1, everyXHours]. */
  lemma {:induction false} CounterClosedForm(everyXHours: nat, k: nat)
    requires everyXHours >= 1
    ensures CounterAfter(everyXHours, k) == k % everyXHours + 1
    ensures 1 <= CounterAfter(everyXHours, k) <= everyXHours
  {
    if k == 0 {
      ModUnique(0, everyXHours, 0, 0);
    } else {
      CounterClosedForm(everyXHours, k - 1);
      FiresInRange(everyXHours, CounterAfter(everyXHours, k - 1));
      ModSucc(k - 1, everyXHours);
    }
  }

  /** A cycle runs exactly on every everyXHours-th tick. */
  lemma FiresEveryNthTick(everyXHours: nat, k: nat)
    requires everyXHours >= 1 && k >= 1
    ensures FiresOnTick(everyXHours, k) <==> k % everyXHours == 0
  {
    CounterClosedForm(everyXHours, k - 1);
    FiresInRange(everyXHours, CounterAfter(everyXHours, k - 1));
    ModSucc(k - 1, everyXHours);
  }

  /** With everyXHours = 1 every tick runs a cycle. */
  lemma FiresEveryTickWhenOne(k: nat)
    requires k >= 1
    ensures FiresOnTick(1, k)
  {
    FiresEveryNthTick(1, k);
  }

  /** With everyXHours = 0 no tick ever runs a cycle. */
  lemma NeverFiresWhenZero(k: nat)
    requires k >= 1
    ensures !FiresOnTick(0, k)
  {
  }

  /** main.js's hourly counter `i`. */
  class HourlyCounter {
    const everyXHours: nat
    var i: nat

    /** The counter stays in [1, everyXHours] when the period is positive. */
    ghost predicate Valid()
      reads this
    {
      i >= 1 && (everyXHours > 0 ==> i <= everyXHours)
    }

    constructor (everyXHours: nat)
      ensures this.everyXHours == everyXHours && i == 1 && Valid()
    {
      this.everyXHours := everyXHours;
      i := 1;
    }

    /** The cron callback: run a cycle and reset the counter, or count on. */
    method Tick() returns (fire: bool)
      requires Valid()
      modifies this
      ensures Valid()
      ensures fire == Fires(everyXHours, old(i))
      ensures i == NextCounter(everyXHours, old(i))
    {
      if everyXHours > 0 && i % everyXHours == 0 {
        i := 1;
        fire := true;
      } else {
        i := i + 1;
        fire := false;
        if everyXHours > 0 {
          FiresInRange(everyXHours, old(i));
        }
      }
    }
  }
}
