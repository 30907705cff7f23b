/** One buy/sell cycle, `nanoUsdtBuySell`: a limit buy at the mid-price, a
    market-buy fallback when it does not fill, and a take-profit limit sell
    that merges the carry-over register. Every exchange reply is an input
    (`Outcomes`); the cycle's observable effects are the requests it sends
    and the new value of the register. */
module Trading {
  import opened Decimal
  import opened Wrappers
  import opened Snapshot
  import opened CarryOver
  import opened Sizing

  /** Order statuses the exchange reports when the limit buy is polled. */
  datatype Status = New | PartiallyFilled | Filled | Canceled | PendingCancel | Rejected | Expired

  /** The limit buy's fate: placing or polling it failed, or it was polled. */
  datatype LimitOutcome =
    | LimitFailed
    | LimitPolled(status: Status, executedQty: real, price: real)

  /** One fill of a market order. */
  datatype Fill = Fill(price: real, qty: real)

  /** The market buy's fate: rejected, or executed with its fills in order. */
  datatype MarketOutcome =
    | MarketFailed
    | MarketFilled(executedQty: real, fills: seq<Fill>)

  /** Every reply the exchange gives during one cycle, plus the random draw
      that `getProfit` makes. A `book` or `marketBook` of None is a failed
      `getBook`. */
  datatype Outcomes = Outcomes(
    book: Option<Book>,
    limit: LimitOutcome,
    cancelOk: bool,
    marketBook: Option<Book>,
    market: MarketOutcome,
    sellOk: bool,
    u: real)

  /** A request the cycle sends to the exchange, whether or not it succeeds. */
  datatype Request =
    | LimitBuy(quantity: real, price: real)
    | CancelLimit
    | MarketBuy(quantity: real)
    | LimitSell(quantity: real, price: real)

  /** What a cycle, or part of one, does: the requests, in order, and the
      register's value afterwards. */
  datatype Step = Step(requests: seq<Request>, carry: Carry)

  /** The books the exchange returns have positive prices to divide by. */
  predicate WellFormed(o: Outcomes)
  {
    && (o.book.Some? ==> Quotable(o.book.value))
    && (o.marketBook.Some? ==> o.marketBook.value.lowestAsk > 0.0)
  }

  /** `getHighestFillPrice`: the price of the last fill, or nothing when
      there are no fills (`pop()` then yields undefined and reading its
      price throws). */
  function HighestFillPrice(fills: seq<Fill>): (r: Option<real>)
    ensures r.Some? <==> |fills| > 0
  {
    if |fills| == 0 then None else Some(fills[|fills| - 1].price)
  }

  /** Fill prices in non-decreasing order, the order in which a market buy
      sweeps the asks. */
  predicate AscendingPrices(fills: seq<Fill>)
  {
    forall i, j :: 0 <= i < j < |fills| ==> fills[i].price <= fills[j].price
  }

  /** When the fills sweep the asks upwards, the last fill's price is the
      highest one paid, as the helper's name says. */
  lemma HighestFillPriceIsHighest(fills: seq<Fill>)
    requires AscendingPrices(fills) && |fills| > 0
    ensures forall k :: 0 <= k < |fills| ==> fills[k].price <= HighestFillPrice(fills).value
    ensures exists k :: 0 <= k < |fills| && fills[k].price == HighestFillPrice(fills).value
  {
    assert fills[|fills| - 1].price == HighestFillPrice(fills).value;
  }

  /** `setLimitSellOrder`: one limit sell; a successful one empties the register. */
  function PlaceSell(cfg: Config, carry: Carry, nanoToSell: real, boughtAt: real, o: Outcomes): Step
  {
    var sell := LimitSell(SellQuantity(cfg, nanoToSell, carry),
                          SellPrice(cfg, boughtAt, ProfitFactor(cfg, o.u), carry));
    Step([sell], if o.sellOk then Zero else carry)
  }

  /** `marketBuyAndSetLimitSell`: re-read the book, market-buy the budget at
      the best ask, and sell what was bought at the last fill's price. */
  function MarketBuyAndSell(cfg: Config, carry: Carry, o: Outcomes): Step
    requires WellFormed(o)
  {
    match o.marketBook
    case None => Step([], carry)
    case Some(mb) =>
      var buy := MarketBuy(MarketBuyAmount(cfg, mb));
      match o.market
      case MarketFailed => Step([buy], carry)
      case MarketFilled(qty, fills) =>
        match HighestFillPrice(fills)
        case None => Step([buy], carry)
        case Some(price) =>
          var sell := PlaceSell(cfg, carry, qty, price, o);
          Step([buy] + sell.requests, sell.carry)
  }

  /** The limit buy a cycle places on a book. */
  function LimitBuyFor(cfg: Config, b: Book): Request
    requires Quotable(b)
  {
    LimitBuy(NanosForPrice(b.middlePrice, UsdtBuyAmount(cfg, b), cfg.nanoDecimals), b.middlePrice)
  }

  /** `nanoUsdtBuySell`, as a function of the register and the replies. */
  function Cycle(cfg: Config, carry: Carry, o: Outcomes): Step
    requires WellFormed(o)
  {
    match o.book
    case None => Step([], carry)
    case Some(b) =>
      if b.usdtBalance < cfg.minOrderUsdt then Step([], carry)
      else
        var limit := LimitBuyFor(cfg, b);
        match o.limit
        case LimitFailed =>
          var rest := MarketBuyAndSell(cfg, carry, o);
          Step([limit] + rest.requests, rest.carry)
        case LimitPolled(status, qty, price) =>
          if status == Filled then
            var sell := PlaceSell(cfg, carry, qty, price, o);
            Step([limit] + sell.requests, sell.carry)
          else if !o.cancelOk then
            Step([limit, CancelLimit], carry)
          else
            var folded := if status == PartiallyFilled then Fold(carry, qty, price) else carry;
            var rest := MarketBuyAndSell(cfg, folded, o);
            Step([limit, CancelLimit] + rest.requests, rest.carry)
  }

  /** Number of sell requests in a request sequence. */
  function SellCount(rs: seq<Request>): nat
  {
    if rs == [] then 0 else SellCount(rs[..|rs| - 1]) + (if rs[|rs| - 1].LimitSell? then 1 else 0)
  }

  /** Sell requests counted over a concatenation. */
  lemma {:induction false} SellCountAppend(a: seq<Request>, b: seq<Request>)
    ensures SellCount(a + b) == SellCount(a) + SellCount(b)
    decreases |b|
  {
    if b == [] {
      assert a + b == a;
    } else {
      assert (a + b)[..|a + b| - 1] == a + b[..|b| - 1];
      SellCountAppend(a, b[..|b| - 1]);
    }
  }

  /** A cycle on a failed first `getBook`, or on a balance below the minimum
      order, sends nothing and leaves the register alone. */
  lemma LowBalanceNoOrders(cfg: Config, carry: Carry, o: Outcomes)
    requires WellFormed(o)
    requires o.book.None? || o.book.value.usdtBalance < cfg.minOrderUsdt
    ensures Cycle(cfg, carry, o) == Step([], carry)
  {
  }

  /** Otherwise the cycle starts with the limit buy at the mid-price, whose
      quantity covers the budget there. */
  lemma CycleStartsWithLimitBuy(cfg: Config, carry: Carry, o: Outcomes)
    requires WellFormed(o) && o.book.Some? && o.book.value.usdtBalance >= cfg.minOrderUsdt
    ensures var rs := Cycle(cfg, carry, o).requests;
            && |rs| > 0 && rs[0].LimitBuy?
            && rs[0].price == o.book.value.middlePrice
            && rs[0].quantity * rs[0].price >= UsdtBuyAmount(cfg, o.book.value)
  {
    LimitBuyCoversBudget(cfg, o.book.value);
  }

  /** FILLED: the limit buy is followed by exactly one sell, of the executed
      quantity at the order's price, with no fold into the register. */
  lemma FilledSellsOnce(cfg: Config, carry: Carry, o: Outcomes)
    requires WellFormed(o) && o.book.Some? && o.book.value.usdtBalance >= cfg.minOrderUsdt
    requires o.limit.LimitPolled? && o.limit.status == Filled
    ensures Cycle(cfg, carry, o).requests == [
              LimitBuyFor(cfg, o.book.value),
              LimitSell(SellQuantity(cfg, o.limit.executedQty, carry),
                        SellPrice(cfg, o.limit.price, ProfitFactor(cfg, o.u), carry))]
    ensures Cycle(cfg, carry, o).carry == if o.sellOk then Zero else carry
  {
  }

  /** PARTIALLY_FILLED with a successful cancel: the fill is folded into the
      register before the market buy, and the sell that follows carries it. */
  lemma PartialFoldsThenMarketBuys(cfg: Config, carry: Carry, o: Outcomes)
    requires WellFormed(o) && o.book.Some? && o.book.value.usdtBalance >= cfg.minOrderUsdt
    requires o.limit.LimitPolled? && o.limit.status == PartiallyFilled && o.cancelOk
    ensures var folded := Fold(carry, o.limit.executedQty, o.limit.price);
            Cycle(cfg, carry, o) == (
              var rest := MarketBuyAndSell(cfg, folded, o);
              Step([LimitBuyFor(cfg, o.book.value), CancelLimit] + rest.requests, rest.carry))
  {
  }

  /** A failed cancel ends the cycle: no fold, no market buy, no sell. */
  lemma FailedCancelStops(cfg: Config, carry: Carry, o: Outcomes)
    requires WellFormed(o) && o.book.Some? && o.book.value.usdtBalance >= cfg.minOrderUsdt
    requires o.limit.LimitPolled? && o.limit.status != Filled && !o.cancelOk
    ensures Cycle(cfg, carry, o) == Step([LimitBuyFor(cfg, o.book.value), CancelLimit], carry)
  {
  }

  /** Any other status: cancel, then market buy, with the register untouched
      until a sell succeeds. */
  lemma OtherStatusCancelsThenMarketBuys(cfg: Config, carry: Carry, o: Outcomes)
    requires WellFormed(o) && o.book.Some? && o.book.value.usdtBalance >= cfg.minOrderUsdt
    requires o.limit.LimitPolled? && o.limit.status !in {Filled, PartiallyFilled} && o.cancelOk
    ensures var rest := MarketBuyAndSell(cfg, carry, o);
            Cycle(cfg, carry, o) == Step([LimitBuyFor(cfg, o.book.value), CancelLimit] + rest.requests, rest.carry)
  {
  }

  /** A failed limit buy goes straight to the market buy, without a cancel. */
  lemma LimitFailureMarketBuys(cfg: Config, carry: Carry, o: Outcomes)
    requires WellFormed(o) && o.book.Some? && o.book.value.usdtBalance >= cfg.minOrderUsdt
    requires o.limit.LimitFailed?
    ensures var rest := MarketBuyAndSell(cfg, carry, o);
            Cycle(cfg, carry, o) == Step([LimitBuyFor(cfg, o.book.value)] + rest.requests, rest.carry)
  {
  }

  /** The market-buy fallback: a failed re-read sends nothing; a rejected
      buy or one without fills sends no sell; otherwise exactly one sell of
      the executed quantity at the last fill's price follows the buy. In
      every case the register changes only when that sell succeeds. */
  lemma MarketBuyAndSellOutcomes(cfg: Config, carry: Carry, o: Outcomes)
    requires WellFormed(o)
    ensures var s := MarketBuyAndSell(cfg, carry, o);
            && (o.marketBook.None? ==> s == Step([], carry))
            && (o.marketBook.Some? ==>
                  |s.requests| > 0 && s.requests[0] == MarketBuy(MarketBuyAmount(cfg, o.marketBook.value)))
            && (o.marketBook.Some? && (o.market.MarketFailed? || o.market.fills == []) ==>
                  s.requests == [MarketBuy(MarketBuyAmount(cfg, o.marketBook.value))] && s.carry == carry)
            && (o.marketBook.Some? && o.market.MarketFilled? && o.market.fills != [] ==>
                  s.requests == [MarketBuy(MarketBuyAmount(cfg, o.marketBook.value)),
                                 LimitSell(SellQuantity(cfg, o.market.executedQty, carry),
                                           SellPrice(cfg, o.market.fills[|o.market.fills| - 1].price,
                                                     ProfitFactor(cfg, o.u), carry))]
                  && s.carry == if o.sellOk then Zero else carry)
  {
  }

  /** Whether a cycle folded a partial fill into the register. */
  predicate Folds(cfg: Config, o: Outcomes)
  {
    && o.book.Some? && o.book.value.usdtBalance >= cfg.minOrderUsdt
    && o.limit.LimitPolled? && o.limit.status == PartiallyFilled && o.cancelOk
  }

  /** The register law of a cycle: it is emptied exactly when a sell was sent
      and succeeded; otherwise it is the old value, with the partial fill
      folded in when there was one. At most one sell is ever sent. */
  lemma CycleCarryLaw(cfg: Config, carry: Carry, o: Outcomes)
    requires WellFormed(o)
    ensures var s := Cycle(cfg, carry, o);
            && SellCount(s.requests) <= 1
            && (SellCount(s.requests) == 1 && o.sellOk ==> s.carry == Zero)
            && (!(SellCount(s.requests) == 1 && o.sellOk) ==>
                  s.carry == if Folds(cfg, o) then Fold(carry, o.limit.executedQty, o.limit.price) else carry)
  {
    var s := Cycle(cfg, carry, o);
    var folded := if Folds(cfg, o) then Fold(carry, o.limit.executedQty, o.limit.price) else carry;
    if o.book.Some? && o.book.value.usdtBalance >= cfg.minOrderUsdt {
      var limit := LimitBuyFor(cfg, o.book.value);
      if o.limit.LimitPolled? && o.limit.status == Filled {
        var sell := PlaceSell(cfg, carry, o.limit.executedQty, o.limit.price, o);
        SellCountAppend([limit], sell.requests);
      } else if o.limit.LimitPolled? && !o.cancelOk {
        SellCountAppend([limit], [CancelLimit]);
      } else {
        var prefix := if o.limit.LimitFailed? then [limit] else [limit, CancelLimit];
        assert SellCount(prefix) == 0 by {
          if prefix == [limit, CancelLimit] {
            assert prefix[..1] == [limit];
          }
        }
        var rest := MarketBuyAndSell(cfg, folded, o);
        assert s == Step(prefix + rest.requests, rest.carry);
        SellCountAppend(prefix, rest.requests);
        MarketBuyAndSellSells(cfg, folded, o);
      }
    }
  }

  /** The fallback sends at most one sell, and empties the register exactly
      when that sell was sent and succeeded. */
  lemma MarketBuyAndSellSells(cfg: Config, carry: Carry, o: Outcomes)
    requires WellFormed(o)
    ensures var s := MarketBuyAndSell(cfg, carry, o);
            && SellCount(s.requests) <= 1
            && (SellCount(s.requests) == 1 && o.sellOk ==> s.carry == Zero)
            && (!(SellCount(s.requests) == 1 && o.sellOk) ==> s.carry == carry)
  {
    var s := MarketBuyAndSell(cfg, carry, o);
    if o.marketBook.Some? && o.market.MarketFilled? && o.market.fills != [] {
      var buy := MarketBuy(MarketBuyAmount(cfg, o.marketBook.value));
      var sell := PlaceSell(cfg, carry, o.market.executedQty,
                            o.market.fills[|o.market.fills| - 1].price, o);
      assert s.requests == [buy] + sell.requests;
      SellCountAppend([buy], sell.requests);
      assert SellCount([buy]) == 0 by { assert [buy][..0] == []; }
      assert SellCount(sell.requests) == 1 by { assert sell.requests[..0] == []; }
    } else if o.marketBook.Some? {
      var buy := MarketBuy(MarketBuyAmount(cfg, o.marketBook.value));
      assert SellCount([buy]) == 0 by { assert [buy][..0] == []; }
    }
  }

  /** A cycle's effect on the register does not depend on the variant: both
      deployments fold, keep and clear it identically. */
  lemma CarryIndependentOfVariant(cfg: Config, v: Variant, carry: Carry, o: Outcomes)
    requires WellFormed(o)
    ensures Cycle(cfg, carry, o).carry == Cycle(cfg.(variant := v), carry, o).carry
  {
  }

  /** Two requests of the same kind. */
  predicate SameKind(r: Request, r': Request)
  {
    && r.LimitBuy? == r'.LimitBuy? && r.CancelLimit? == r'.CancelLimit?
    && r.MarketBuy? == r'.MarketBuy? && r.LimitSell? == r'.LimitSell?
  }

  /** Request sequences of the same length with the same kind at every position. */
  predicate SameKinds(rs: seq<Request>, rs': seq<Request>)
  {
    |rs| == |rs'| && forall k :: 0 <= k < |rs| ==> SameKind(rs[k], rs'[k])
  }

  /** A common prefix keeps two sequences of the same kinds. */
  lemma SameKindsAppend(prefix: seq<Request>, a: seq<Request>, b: seq<Request>)
    requires SameKinds(a, b)
    ensures SameKinds(prefix + a, prefix + b)
  {
    forall k | 0 <= k < |prefix + a|
      ensures SameKind((prefix + a)[k], (prefix + b)[k])
    {
      if k >= |prefix| {
        assert (prefix + a)[k] == a[k - |prefix|];
        assert (prefix + b)[k] == b[k - |prefix|];
      }
    }
  }

  /** Two configurations that differ only in the variant send sequences of
      the same length with the same kinds of request in the same order, and
      so the same number of sells. */
  lemma SameShape(cfg: Config, cfg': Config, carry: Carry, o: Outcomes)
    requires WellFormed(o)
    requires cfg' == cfg.(variant := cfg'.variant)
    ensures SameKinds(Cycle(cfg, carry, o).requests, Cycle(cfg', carry, o).requests)
    ensures SellCount(Cycle(cfg, carry, o).requests) == SellCount(Cycle(cfg', carry, o).requests)
  {
    var rs, rs' := Cycle(cfg, carry, o).requests, Cycle(cfg', carry, o).requests;
    if o.book.Some? && o.book.value.usdtBalance >= cfg.minOrderUsdt {
      var limit := LimitBuyFor(cfg, o.book.value);
      assert UsdtBuyAmount(cfg, o.book.value) == UsdtBuyAmount(cfg', o.book.value);
      assert limit == LimitBuyFor(cfg', o.book.value);
      if o.limit.LimitPolled? && o.limit.status == Filled {
        var sell := PlaceSell(cfg, carry, o.limit.executedQty, o.limit.price, o);
        var sell' := PlaceSell(cfg', carry, o.limit.executedQty, o.limit.price, o);
        assert rs == [limit] + sell.requests && rs' == [limit] + sell'.requests;
        SameKindsAppend([limit], sell.requests, sell'.requests);
      } else if o.limit.LimitPolled? && !o.cancelOk {
        assert rs == rs';
      } else {
        var folded := if Folds(cfg, o) then Fold(carry, o.limit.executedQty, o.limit.price) else carry;
        var prefix := if o.limit.LimitFailed? then [limit] else [limit, CancelLimit];
        var rest, rest' := MarketBuyAndSell(cfg, folded, o), MarketBuyAndSell(cfg', folded, o);
        assert rs == prefix + rest.requests;
        assert rs' == prefix + rest'.requests;
        MarketBuyAndSellShape(cfg, cfg', folded, o);
        SameKindsAppend(prefix, rest.requests, rest'.requests);
      }
    }
    SameShapeSellCount(rs, rs');
  }

  /** The fallback's requests have the same kinds in both configurations. */
  lemma MarketBuyAndSellShape(cfg: Config, cfg': Config, carry: Carry, o: Outcomes)
    requires WellFormed(o)
    requires cfg' == cfg.(variant := cfg'.variant)
    ensures SameKinds(MarketBuyAndSell(cfg, carry, o).requests, MarketBuyAndSell(cfg', carry, o).requests)
  {
  }

  /** Sequences with the same kinds of request hold the same number of sells. */
  lemma {:induction false} SameShapeSellCount(rs: seq<Request>, rs': seq<Request>)
    requires SameKinds(rs, rs')
    ensures SellCount(rs) == SellCount(rs')
  {
    if rs != [] {
      var init, init' := rs[..|rs| - 1], rs'[..|rs'| - 1];
      assert forall k :: 0 <= k < |init| ==> init[k] == rs[k] && init'[k] == rs'[k];
      SameShapeSellCount(init, init');
    }
  }

  /** Successive cycles from a register value. */
  function Run(cfg: Config, carry: Carry, os: seq<Outcomes>): Carry
    requires forall k :: 0 <= k < |os| ==> WellFormed(os[k])
  {
    if os == [] then carry
    else Cycle(cfg, Run(cfg, carry, os[..|os| - 1]), os[|os| - 1]).carry
  }

  /** Until a sell succeeds the register only grows: across any run of
      cycles whose sells all fail, and whose partial fills are non-negative,
      the carried amount and the tracked price never decrease. */
  lemma {:induction false} RunCarryMonotone(cfg: Config, carry: Carry, os: seq<Outcomes>)
    requires forall k :: 0 <= k < |os| ==> WellFormed(os[k])
    requires forall k :: 0 <= k < |os| ==> !os[k].sellOk
    requires forall k :: 0 <= k < |os| ==> os[k].limit.LimitPolled? ==> os[k].limit.executedQty >= 0.0
    ensures Run(cfg, carry, os).amount >= carry.amount
    ensures Run(cfg, carry, os).boughtAt >= carry.boughtAt
  {
    if os != [] {
      var init := os[..|os| - 1];
      var last := os[|os| - 1];
      assert forall k :: 0 <= k < |init| ==> init[k] == os[k];
      RunCarryMonotone(cfg, carry, init);
      CycleCarryLaw(cfg, Run(cfg, carry, init), last);
    }
  }

  /** The running bot: the carry-over register is its state. */
  class Bot {
    const cfg: Config
    var carryAmount: real
    var carryBoughtAt: real

    /** The register's value. */
    function CarryValue(): Carry
      reads this
    {
      Carry(carryAmount, carryBoughtAt)
    }

    /** A freshly started bot carries nothing. */
    constructor (cfg: Config)
      ensures this.cfg == cfg && CarryValue() == Zero
    {
      this.cfg := cfg;
      carryAmount, carryBoughtAt := 0.0, 0.0;
    }

    /** Folding a cancelled partial fill into the register. */
    method FoldPartialFill(executedQty: real, price: real)
      modifies this
      ensures CarryValue() == Fold(old(CarryValue()), executedQty, price)
    {
      carryAmount := carryAmount + executedQty;
      carryBoughtAt := Max(price, carryBoughtAt);
    }

    /** `setLimitSellOrder`: builds the sell from the lot and the register,
        and empties the register when the exchange accepts it. */
    method SetLimitSellOrder(nanoToSell: real, boughtAt: real, o: Outcomes) returns (req: Request)
      modifies this
      ensures Step([req], CarryValue()) == PlaceSell(cfg, old(CarryValue()), nanoToSell, boughtAt, o)
    {
      var quantity := Round(nanoToSell * 0.999, cfg.nanoDecimals, Nearest);
      var sellAt := Round(boughtAt * ProfitFactor(cfg, o.u), cfg.priceDecimals, Nearest);
      if carryAmount > 0.0 {
        quantity := quantity + carryAmount;
        sellAt := Max(sellAt, carryBoughtAt);
      }
      req := LimitSell(quantity, sellAt);
      if o.sellOk {
        carryAmount := 0.0;
        carryBoughtAt := 0.0;
      }
    }

    /** `getMarketBuyAmmount` with main.js's in-place 1% bump. */
    method GetMarketBuyAmount(book: Book) returns (quantity: real)
      requires book.lowestAsk > 0.0
      ensures quantity == MarketBuyAmount(cfg, book)
      ensures OnGrid(quantity, cfg.nanoDecimals)
    {
      var nanos := NanosForPrice(book.lowestAsk, UsdtBuyAmount(cfg, book), cfg.nanoDecimals);
      if cfg.variant.Hourly? && nanos < book.lowestAskAmount {
        nanos := nanos * 1.01;
      }
      quantity := Round(nanos, cfg.nanoDecimals, Up);
      RoundOnGrid(nanos, cfg.nanoDecimals, Up);
    }

    /** `marketBuyAndSetLimitSell`. */
    method MarketBuyAndSetLimitSell(o: Outcomes) returns (requests: seq<Request>)
      requires WellFormed(o)
      modifies this
      ensures Step(requests, CarryValue()) == MarketBuyAndSell(cfg, old(CarryValue()), o)
    {
      requests := [];
      if o.marketBook.None? {
        return;
      }
      var quantity := GetMarketBuyAmount(o.marketBook.value);
      requests := [MarketBuy(quantity)];
      if o.market.MarketFailed? {
        return;
      }
      var price := HighestFillPrice(o.market.fills);
      if price.None? {
        return;
      }
      var sell := SetLimitSellOrder(o.market.executedQty, price.value, o);
      requests := requests + [sell];
    }

    /** `nanoUsdtBuySell`: one whole cycle. */
    method NanoUsdtBuySell(o: Outcomes) returns (requests: seq<Request>)
      requires WellFormed(o)
      modifies this
      ensures Step(requests, CarryValue()) == Cycle(cfg, old(CarryValue()), o)
    {
      requests := [];
      if o.book.None? {
        return;
      }
      var book := o.book.value;
      if book.usdtBalance < cfg.minOrderUsdt {
        return;
      }
      var usdt := UsdtBuyAmount(cfg, book);
      requests := [LimitBuy(NanosForPrice(book.middlePrice, usdt, cfg.nanoDecimals), book.middlePrice)];
      match o.limit
      case LimitFailed =>
        var rest := MarketBuyAndSetLimitSell(o);
        requests := requests + rest;
      case LimitPolled(status, qty, price) =>
        if status == Filled {
          var sell := SetLimitSellOrder(qty, price, o);
          requests := requests + [sell];
        } else {
          requests := requests + [CancelLimit];
          if o.cancelOk {
            if status == PartiallyFilled {
              FoldPartialFill(qty, price);
            }
            var rest := MarketBuyAndSetLimitSell(o);
            requests := requests + rest;
          }
        }
    }
  }
}
