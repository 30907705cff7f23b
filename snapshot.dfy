/** The market snapshot that `getBook` builds from the account and the top
    of the NANOUSDT order book. */
module Snapshot {
  import opened Decimal
  import opened Wrappers

  /** One price level of the order book, as the exchange reports it. */
  datatype Level = Level(price: real, quantity: real)

  /** One entry of the account's balances. */
  datatype Balance = Balance(asset: string, free: real)

  /** What `getBook` returns. */
  datatype Book = Book(
    lowestAsk: real,
    lowestAskAmount: real,
    highestBid: real,
    middlePrice: real,
    usdtBalance: real)

  /** The limit-buy price: the midpoint of best ask and best bid, rounded DOWN. */
  function MiddlePrice(ask: real, bid: real, priceDecimals: nat): real
  {
    Round((ask + bid) / 2.0, priceDecimals, Down)
  }

  /** `balances.find(b => b.asset === asset).free`: the first matching entry,
      or nothing when no entry matches. */
  function FindFree(balances: seq<Balance>, asset: string): (r: Option<real>)
    ensures r.Some? <==> exists i :: 0 <= i < |balances| && balances[i].asset == asset
    ensures r.Some? ==> exists i :: 0 <= i < |balances| && balances[i].asset == asset &&
                                    balances[i].free == r.value &&
                                    forall j :: 0 <= j < i ==> balances[j].asset != asset
  {
    if balances == [] then None
    else if balances[0].asset == asset then Some(balances[0].free)
    else
      var r := FindFree(balances[1..], asset);
      assert forall i :: 1 <= i < |balances| ==> balances[i] == balances[1..][i - 1];
      r
  }

  /** `getBook`: fails (None) when the book has no asks or no bids, or the
      account has no USDT entry; the exchange call itself failing is the
      caller's None. */
  function GetBook(asks: seq<Level>, bids: seq<Level>, balances: seq<Balance>, priceDecimals: nat)
    : (r: Option<Book>)
    ensures r.Some? <==> |asks| > 0 && |bids| > 0 && FindFree(balances, "USDT").Some?
  {
    if |asks| == 0 || |bids| == 0 then None
    else match FindFree(balances, "USDT")
      case None => None
      case Some(usdt) =>
        Some(Book(asks[0].price, asks[0].quantity, bids[0].price,
                  MiddlePrice(asks[0].price, bids[0].price, priceDecimals), usdt))
  }

  /** A book the cycle can size orders from: the prices it divides by are positive. */
  predicate Quotable(b: Book)
  {
    b.lowestAsk > 0.0 && b.middlePrice > 0.0
  }

  /** The mid-price is at most the true midpoint and less than one tick below it,
      and it is a price with at most `priceDecimals` places. */
  lemma MiddlePriceBounds(ask: real, bid: real, priceDecimals: nat)
    ensures MiddlePrice(ask, bid, priceDecimals) <= (ask + bid) / 2.0
    ensures (ask + bid) / 2.0 < MiddlePrice(ask, bid, priceDecimals) + Tick(priceDecimals)
    ensures OnGrid(MiddlePrice(ask, bid, priceDecimals), priceDecimals)
  {
    RoundDownBounds((ask + bid) / 2.0, priceDecimals);
    RoundOnGrid((ask + bid) / 2.0, priceDecimals, Down);
  }

  /** When both top prices are at least one price tick (quotes on the pair's
      tick grid are), every book `getBook` builds is quotable. */
  lemma GetBookQuotable(asks: seq<Level>, bids: seq<Level>, balances: seq<Balance>, priceDecimals: nat)
    requires |asks| > 0 && |bids| > 0
    requires asks[0].price >= Tick(priceDecimals) && bids[0].price >= Tick(priceDecimals)
    requires GetBook(asks, bids, balances, priceDecimals).Some?
    ensures Quotable(GetBook(asks, bids, balances, priceDecimals).value)
  {
    var t := Tick(priceDecimals);
    var mid := (asks[0].price + bids[0].price) / 2.0;
    assert OnGrid(t, priceDecimals) by {
      assert t * Pow10(priceDecimals) as real == 1.0;
    }
    RoundDownIsGreatest(mid, t, priceDecimals);
  }
}
