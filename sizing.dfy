/** Order sizing and pricing: the buy budget, the limit and market buy
    quantities, the profit factor and the take-profit sell order. */
module Sizing {
  import opened Decimal
  import opened Snapshot
  import opened CarryOver

  /** What differs between the two deployments of the bot. */
  datatype Variant =
    /** main.cjs: random profit in [min, max), book-aware trigger. */
    | BookAware(profitPercentMin: real, profitPercentMax: real, sellSpreadMax: real)
    /** main.js: fixed profit, hourly trigger, bumped market buy. */
    | Hourly(profitPercent: real, everyXHours: nat)

  /** The `environment` record, already parsed. */
  datatype Config = Config(
    minOrderUsdt: real,
    minOrderPercent: int,
    priceDecimals: nat,
    nanoDecimals: nat,
    variant: Variant)

  /** `getUsdtBuyAmmount`: the USDT to spend on one lot. */
  function UsdtBuyAmount(cfg: Config, book: Book): real
  {
    Max(cfg.minOrderUsdt, book.usdtBalance * (cfg.minOrderPercent as real / 100.0))
  }

  /** The budget is never below the configured minimum order nor below the
      configured share of the balance, and it is one of the two. */
  lemma UsdtBuyAmountBounds(cfg: Config, book: Book)
    ensures UsdtBuyAmount(cfg, book) >= cfg.minOrderUsdt
    ensures UsdtBuyAmount(cfg, book) >= book.usdtBalance * cfg.minOrderPercent as real / 100.0
    ensures UsdtBuyAmount(cfg, book) == cfg.minOrderUsdt ||
            UsdtBuyAmount(cfg, book) == book.usdtBalance * cfg.minOrderPercent as real / 100.0
  {
    assert book.usdtBalance * (cfg.minOrderPercent as real / 100.0)
        == book.usdtBalance * cfg.minOrderPercent as real / 100.0;
  }

  /** `getNanosForPrice`: the NANO quantity that buys `usdt` at `price`, rounded UP. */
  function NanosForPrice(price: real, usdt: real, nanoDecimals: nat): real
    requires price > 0.0
  {
    Round(usdt / price, nanoDecimals, Up)
  }

  /** Rounding UP makes the quantity cover the budget at that price, with
      less than one quantity tick to spare. */
  lemma NanosForPriceCovers(price: real, usdt: real, nanoDecimals: nat)
    requires price > 0.0
    ensures NanosForPrice(price, usdt, nanoDecimals) * price >= usdt
    ensures NanosForPrice(price, usdt, nanoDecimals) < usdt / price + Tick(nanoDecimals)
  {
    var q := NanosForPrice(price, usdt, nanoDecimals);
    RoundUpBounds(usdt / price, nanoDecimals);
    assert q >= usdt / price;
    assert q * price >= (usdt / price) * price;
  }

  /** The limit-buy quantity at the mid-price covers the budget. */
  lemma LimitBuyCoversBudget(cfg: Config, book: Book)
    requires Quotable(book)
    ensures NanosForPrice(book.middlePrice, UsdtBuyAmount(cfg, book), cfg.nanoDecimals)
            * book.middlePrice >= UsdtBuyAmount(cfg, book)
    ensures NanosForPrice(book.middlePrice, UsdtBuyAmount(cfg, book), cfg.nanoDecimals)
            * book.middlePrice >= cfg.minOrderUsdt
  {
    NanosForPriceCovers(book.middlePrice, UsdtBuyAmount(cfg, book), cfg.nanoDecimals);
    UsdtBuyAmountBounds(cfg, book);
  }

  /** `getMarketBuyAmmount`: in main.js a quantity below the best ask's size
      is bumped by 1% before the final UP rounding; main.cjs only rounds. */
  function MarketBuyAmount(cfg: Config, book: Book): real
    requires book.lowestAsk > 0.0
  {
    var nanos := NanosForPrice(book.lowestAsk, UsdtBuyAmount(cfg, book), cfg.nanoDecimals);
    var bumped := if cfg.variant.Hourly? && nanos < book.lowestAskAmount then nanos * 1.01 else nanos;
    Round(bumped, cfg.nanoDecimals, Up)
  }

  /** In main.cjs the second UP rounding changes nothing: the market buy is
      exactly the budget's quantity at the best ask. */
  lemma MarketBuyAmountBookAware(cfg: Config, book: Book)
    requires book.lowestAsk > 0.0 && cfg.variant.BookAware?
    ensures MarketBuyAmount(cfg, book)
         == NanosForPrice(book.lowestAsk, UsdtBuyAmount(cfg, book), cfg.nanoDecimals)
  {
    RoundIdempotent(UsdtBuyAmount(cfg, book) / book.lowestAsk, cfg.nanoDecimals, Up);
  }

  /** In main.js the market buy is never below the budget's quantity at the
      best ask; it equals it when that quantity already reaches the best
      ask's size, and is 1% more (rounded UP) when it does not. */
  lemma MarketBuyAmountHourly(cfg: Config, book: Book)
    requires book.lowestAsk > 0.0 && cfg.variant.Hourly?
    requires cfg.minOrderUsdt >= 0.0
    ensures var nanos := NanosForPrice(book.lowestAsk, UsdtBuyAmount(cfg, book), cfg.nanoDecimals);
            && MarketBuyAmount(cfg, book) >= nanos
            && (nanos >= book.lowestAskAmount ==> MarketBuyAmount(cfg, book) == nanos)
            && (nanos < book.lowestAskAmount ==>
                  MarketBuyAmount(cfg, book) == Round(nanos * 1.01, cfg.nanoDecimals, Up))
  {
    var usdt := UsdtBuyAmount(cfg, book);
    var nanos := NanosForPrice(book.lowestAsk, usdt, cfg.nanoDecimals);
    UsdtBuyAmountBounds(cfg, book);
    RoundUpBounds(usdt / book.lowestAsk, cfg.nanoDecimals);
    assert usdt / book.lowestAsk >= 0.0;
    RoundOnGrid(usdt / book.lowestAsk, cfg.nanoDecimals, Up);
    RoundFixesGrid(nanos, cfg.nanoDecimals, Up);
    if nanos < book.lowestAskAmount {
      RoundUpIsLeast(nanos, nanos, cfg.nanoDecimals);
      RoundMonotone(nanos, nanos * 1.01, cfg.nanoDecimals, Up);
    }
  }

  /** `getProfit(min, max)` with the random draw `u` in [0, 1) as a parameter. */
  function RandomProfitFactor(min: real, max: real, u: real): real
  {
    (min + (max - min) * u + 100.0) / 100.0
  }

  /** main.js's fixed factor `(profitPercent + 100) / 100`. */
  function FixedProfitFactor(profitPercent: real): real
  {
    (profitPercent + 100.0) / 100.0
  }

  /** The random factor lies in [1 + min/100, 1 + max/100), and is exactly
      1 + min/100 when the two bounds coincide. */
  lemma RandomProfitFactorRange(min: real, max: real, u: real)
    requires 0.0 <= u < 1.0
    ensures min < max ==> 1.0 + min / 100.0 <= RandomProfitFactor(min, max, u) < 1.0 + max / 100.0
    ensures min == max ==> RandomProfitFactor(min, max, u) == 1.0 + min / 100.0
  {
    if min < max {
      SpreadBelow(min, max, u);
    } else if min == max {
      Distribute(max, min, u);
    }
  }

  /** 0 <= (hi - lo) * u < hi - lo for lo < hi and u in [0, 1). */
  lemma SpreadBelow(lo: real, hi: real, u: real)
    requires lo < hi && 0.0 <= u < 1.0
    ensures 0.0 <= (hi - lo) * u < hi - lo
  {
    Distribute(hi, lo, u);
    MulLess(lo, hi, u);
  }

  /** lo * u <= hi * u and hi * u - lo * u < hi - lo for lo < hi and u in [0, 1). */
  lemma MulLess(lo: real, hi: real, u: real)
    requires lo < hi && 0.0 <= u < 1.0
    ensures lo * u <= hi * u
    ensures hi * u - lo * u < hi - lo
  {
    var a, b := hi - lo, 1.0 - u;
    ProductPositive(a, b);
    Expand(a, b, hi, lo, u);
  }

  /** (hi - lo) * (1 - u) multiplied out. */
  lemma Expand(a: real, b: real, hi: real, lo: real, u: real)
    requires a == hi - lo && b == 1.0 - u
    ensures a * b == hi - lo - hi * u + lo * u
  {
  }

  /** (x - y) * z == x * z - y * z. */
  lemma Distribute(x: real, y: real, z: real)
    ensures (x - y) * z == x * z - y * z
  {
  }

  /** The product of two positive numbers is positive. */
  lemma ProductPositive(x: real, y: real)
    requires x > 0.0 && y > 0.0
    ensures x * y > 0.0
  {
  }

  /** The fixed factor of main.js is the random factor of main.cjs with both
      bounds set to the same percentage, whatever the draw. */
  lemma FixedIsDegenerateRandom(profitPercent: real, u: real)
    ensures FixedProfitFactor(profitPercent) == RandomProfitFactor(profitPercent, profitPercent, u)
  {
  }

  /** The profit factor each variant applies to the buy price. */
  function ProfitFactor(cfg: Config, u: real): real
  {
    match cfg.variant
    case BookAware(min, max, _) => RandomProfitFactor(min, max, u)
    case Hourly(p, _) => FixedProfitFactor(p)
  }

  /** A non-negative configured profit never yields a factor below 1, also
      when the range is given with its bounds the wrong way round. */
  lemma ProfitFactorAtLeastOne(cfg: Config, u: real)
    requires 0.0 <= u < 1.0
    requires cfg.variant.BookAware? ==> 0.0 <= cfg.variant.profitPercentMin && 0.0 <= cfg.variant.profitPercentMax
    requires cfg.variant.Hourly? ==> cfg.variant.profitPercent >= 0.0
    ensures ProfitFactor(cfg, u) >= 1.0
  {
    if cfg.variant.BookAware? {
      var min, max := cfg.variant.profitPercentMin, cfg.variant.profitPercentMax;
      if min <= max {
        RandomProfitFactorRange(min, max, u);
      } else {
        SpreadBelow(max, min, u);
        Distribute(max, min, u);
        Distribute(min, max, u);
        assert (max - min) * u == -((min - max) * u);
        assert min + (max - min) * u + 100.0 >= 100.0;
      }
    }
  }

  /** The quantity `setLimitSellOrder` sells: 99.9% of the lot rounded to the
      nearest quantity tick, plus the whole carried amount when one is carried. */
  function SellQuantity(cfg: Config, nanoToSell: real, carry: Carry): real
  {
    var lot := Round(nanoToSell * 0.999, cfg.nanoDecimals, Nearest);
    if carry.amount > 0.0 then lot + carry.amount else lot
  }

  /** The price `setLimitSellOrder` asks: the buy price times the profit
      factor rounded to the nearest price tick, raised to the carried lot's
      raw buy price when one is carried. */
  function SellPrice(cfg: Config, boughtAt: real, profit: real, carry: Carry): real
  {
    var target := Round(boughtAt * profit, cfg.priceDecimals, Nearest);
    if carry.amount > 0.0 then Max(target, carry.boughtAt) else target
  }

  /** The amount carried into a sell. */
  function Carried(carry: Carry): real
  {
    if carry.amount > 0.0 then carry.amount else 0.0
  }

  /** The sell quantity is the carried amount plus 99.9% of the lot, to
      within half a quantity tick, and the lot part has at most
      `nanoDecimals` places. */
  lemma SellQuantityMerges(cfg: Config, nanoToSell: real, carry: Carry)
    ensures var lot := SellQuantity(cfg, nanoToSell, carry) - Carried(carry);
            && nanoToSell * 0.999 - Tick(cfg.nanoDecimals) / 2.0 < lot
            && lot <= nanoToSell * 0.999 + Tick(cfg.nanoDecimals) / 2.0
            && OnGrid(lot, cfg.nanoDecimals)
  {
    RoundNearestBounds(nanoToSell * 0.999, cfg.nanoDecimals);
    RoundOnGrid(nanoToSell * 0.999, cfg.nanoDecimals, Nearest);
  }

  /** The 0.1% reserve: for a lot of at most `nanoDecimals` places the sell
      never exceeds the lot plus the carried amount. */
  lemma SellQuantityNoOversell(cfg: Config, nanoToSell: real, carry: Carry)
    requires nanoToSell >= 0.0 && OnGrid(nanoToSell, cfg.nanoDecimals)
    ensures SellQuantity(cfg, nanoToSell, carry) <= nanoToSell + Carried(carry)
  {
    RoundMonotone(nanoToSell * 0.999, nanoToSell, cfg.nanoDecimals, Nearest);
    RoundFixesGrid(nanoToSell, cfg.nanoDecimals, Nearest);
  }

  /** While carrying, the sell price is the larger of the current lot's
      target and the carried lot's buy price; otherwise it is the target,
      within half a price tick of buy price times profit. */
  lemma SellPriceBounds(cfg: Config, boughtAt: real, profit: real, carry: Carry)
    ensures var target := Round(boughtAt * profit, cfg.priceDecimals, Nearest);
            && SellPrice(cfg, boughtAt, profit, carry) >= target
            && (carry.amount > 0.0 ==> SellPrice(cfg, boughtAt, profit, carry) >= carry.boughtAt)
            && (carry.amount > 0.0 ==> SellPrice(cfg, boughtAt, profit, carry) == target
                                        || SellPrice(cfg, boughtAt, profit, carry) == carry.boughtAt)
            && (carry.amount <= 0.0 ==> SellPrice(cfg, boughtAt, profit, carry) == target)
            && boughtAt * profit - Tick(cfg.priceDecimals) / 2.0 < target
            && target <= boughtAt * profit + Tick(cfg.priceDecimals) / 2.0
  {
    RoundNearestBounds(boughtAt * profit, cfg.priceDecimals);
  }

  /** With a factor of at least 1 the sell price never undercuts the buy
      price of the current lot, when that price is on the price grid. */
  lemma SellPriceAboveCost(cfg: Config, boughtAt: real, profit: real, carry: Carry)
    requires boughtAt >= 0.0 && profit >= 1.0 && OnGrid(boughtAt, cfg.priceDecimals)
    ensures SellPrice(cfg, boughtAt, profit, carry) >= boughtAt
  {
    assert boughtAt * profit >= boughtAt * 1.0;
    RoundMonotone(boughtAt, boughtAt * profit, cfg.priceDecimals, Nearest);
    RoundFixesGrid(boughtAt, cfg.priceDecimals, Nearest);
  }
}
