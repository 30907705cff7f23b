# NANO/USDT trading bot — a Dafny model

This project models the decision and bookkeeping logic of a single-pair
(NANO/USDT) spot-trading bot. The bot comes in two deployments: `main.cjs`
and `main.js`.

Each cycle (`nanoUsdtBuySell`) runs these steps:

1. It reads the book and the USDT balance.
2. It places a limit buy at the mid-price, sized from a budget.
3. It polls that order and branches on the reported status.
4. When needed, it cancels the order and falls back to a market buy.
5. It places a take-profit limit sell.

The sell merges a *carry-over register* (`sellExtraNanosOnNextRound`).
That register holds NANO bought by an earlier partially filled limit order.

The two deployments differ in three ways:

- **Trigger.** `main.cjs` runs a cycle when its own sell side is empty or too far above the best ask. `main.js` counts hourly ticks.
- **Profit.** `main.cjs` draws a random profit in a range. `main.js` uses a fixed profit.
- **Market buy.** `main.js` bumps a small market-buy quantity by 1%.

Quantities and prices are exact decimals (`real`).

Every exchange reply is an input to the model, bundled in `Trading.Outcomes`:

- the book reads;
- the polled limit order;
- whether the cancel succeeds;
- the market order's fills;
- whether the sell is accepted;
- the random draw `u` in [0, 1).

A cycle's effect is a `Trading.Step`. It holds the sequence of requests the cycle sends and the register's new value. Requests sent but rejected by the exchange still count as sent.

Modules:

- `Decimal` (decimal.dfy): `round` with UP, DOWN and nearest (half-up) directions, and its laws.
- `Snapshot` (snapshot.dfy): `getBook`, the mid-price, the USDT balance lookup.
- `CarryOver` (carry.dfy): the register's value and how partial fills fold into it.
- `Sizing` (sizing.dfy):
  - the buy budget;
  - the limit and market quantities;
  - the profit factor;
  - the sell quantity and price.

  `Config.variant` selects the deployment.
- `Trading` (trading.dfy):
  - the cycle as a function, `Cycle`, with lemmas for every dispatch branch;
  - the class `Bot`, whose fields are the register. Its methods mirror the source's functions step by step, and each method is proved equal to the specification function.
- `Trigger` (trigger.dfy):
  - the book-aware check, including the source's minimum loop as a method;
  - main.js's hourly counter as the class `HourlyCounter`.

## Behaviour of the code that the model keeps

- **Failed cancel.** When cancelling the limit order fails, the code only logs (main.cjs:89-93, 99-103; main.js:62-66, 72-76). The cycle ends there: it does not go on to the market buy, folds nothing into the register and sends no sell. See `Trading.FailedCancelStops`.
- **Price floor of a carried lot.** When a lot is carried, the sell price is raised to at least the carried lot's *raw* buy price, `carry.boughtAt`. It is not raised to that price times the profit factor (main.cjs:149, main.js:117). So the carried lot is protected against a loss, not guaranteed a profit.
- **The 1% bump.** `main.js` bumps the market-buy quantity when it is *below* the best ask's size (main.js:149-150).
- **Empty fills.** A market order with no fills makes `pop()` return undefined. Reading its price then throws, and the promise's catch swallows the error. The model sends no sell in that case.
- **`everyXHours` = 0.** In JavaScript, `i % 0` is NaN, so a zero `everyXHours` never fires. The model reproduces this.

## Model

| member | source | states |
|---|---|---|
| `Decimal.Ceil` | main.cjs:235 | Math.ceil: the least integer not below its argument |
| `Decimal.RoundHalfUp` | main.cjs:239 | Math.round: within half a unit of its argument, halves rounding up |
| `Decimal.RoundUpBounds` | main.cjs:234-235 | UP gives a result ≥ x and < x + 10^-d |
| `Decimal.RoundDownBounds` | main.cjs:236-237 | DOWN gives a result ≤ x and > x − 10^-d |
| `Decimal.RoundNearestBounds` | main.cjs:238-240 | nearest lies in (x − 10^-d/2, x + 10^-d/2] |
| `Decimal.RoundOrdered` | main.cjs:232-241 | DOWN ≤ nearest ≤ UP |
| `Decimal.RoundMonotone` | main.cjs:232-241 | in every direction, rounding preserves order |
| `Decimal.RoundUpIsLeast` | main.cjs:234-235 | UP is the least d-place value not below x |
| `Decimal.RoundDownIsGreatest` | main.cjs:236-237 | DOWN is the greatest d-place value not above x |
| `Decimal.RoundOnGrid` | main.js:203-212 | every result is a multiple of 10^-d |
| `Decimal.RoundFixesGrid` | main.js:205-211 | a value with at most d places is unchanged by rounding in any direction |
| `Decimal.RoundIdempotent` | main.js:203-212 | rounding twice equals rounding once |
| `Decimal.Round` | main.cjs:232-241 | `round(number, decimals, direction)`: scale by 10^d, ceil/floor/Math.round, scale back; specified by `RoundUpBounds`, `RoundDownBounds`, `RoundNearestBounds`, `RoundUpIsLeast`, `RoundDownIsGreatest`, `RoundOnGrid`, `RoundIdempotent` |
| `Snapshot.FindFree` | main.cjs:119 | `find` yields the free amount of the first entry with that asset, and nothing exactly when no entry has it |
| `Snapshot.GetBook` | main.cjs:111-121 | the snapshot exists exactly when there are asks, bids and a USDT balance |
| `Snapshot.MiddlePriceBounds` | main.cjs:118 | the mid-price is ≤ (ask+bid)/2, within one price tick below it, and on the price grid |
| `Snapshot.MiddlePrice` | main.cjs:118 | (ask+bid)/2 rounded DOWN to the price decimals; specified by `MiddlePriceBounds` |
| `Snapshot.GetBookQuotable` | main.js:84-94 | with top prices of at least one tick, the mid-price and best ask are positive |
| `CarryOver.Fold` | main.cjs:84-85 | folding adds the executed quantity, and the tracked price becomes the larger of the old price and the fill price |
| `CarryOver.FoldAllTotals` | main.js:57-58 | after successive partial fills, the register holds the total quantity and the highest price among the start and all fills |
| `CarryOver.FoldAllMonotone` | main.cjs:84-85 | across successive partial fills, amount and price are both non-decreasing |
| `Sizing.UsdtBuyAmountBounds` | main.cjs:218-220 | the budget is ≥ minOrderUsdt and ≥ balance·percent/100, and equals one of them |
| `Sizing.UsdtBuyAmount` | main.cjs:218-220 | `getUsdtBuyAmmount`; specified by `UsdtBuyAmountBounds` |
| `Sizing.NanosForPriceCovers` | main.cjs:214-216 | the UP-rounded quantity times the price covers the USDT amount, with less than one quantity tick to spare |
| `Sizing.NanosForPrice` | main.cjs:214-216 | `getNanosForPrice`; specified by `NanosForPriceCovers` and `LimitBuyCoversBudget` |
| `Sizing.LimitBuyCoversBudget` | main.cjs:194-199 | the limit-buy quantity times middlePrice is ≥ the budget and ≥ minOrderUsdt |
| `Sizing.MarketBuyAmountBookAware` | main.cjs:178-182 | in main.cjs, the market-buy amount is exactly UP(budget/lowestAsk); the second rounding changes nothing |
| `Sizing.MarketBuyAmountHourly` | main.js:146-153 | in main.js, the amount is ≥ UP(budget/lowestAsk); it is unchanged at or above the ask's size, and UP(1.01·nanos) below it |
| `Sizing.MarketBuyAmount` | main.cjs:178-182 | `getMarketBuyAmmount` of both deployments (main.js:146-153 adds the bump); specified by `MarketBuyAmountBookAware`, `MarketBuyAmountHourly` and `Trading.Bot.GetMarketBuyAmount` |
| `Sizing.RandomProfitFactorRange` | main.cjs:137-140 | for u ∈ [0,1), the profit factor lies in [1+min/100, 1+max/100), and equals 1+min/100 when min = max |
| `Sizing.RandomProfitFactor` | main.cjs:137-140 | `getProfit` with the draw as `u`; specified by `RandomProfitFactorRange` |
| `Sizing.FixedIsDegenerateRandom` | main.js:113 | main.js's fixed factor equals main.cjs's random factor with min = max = profitPercent |
| `Sizing.ProfitFactorAtLeastOne` | main.cjs:137-143 | non-negative profit settings give a factor ≥ 1 in both variants, in main.cjs whichever of min and max is the larger |
| `Sizing.FixedProfitFactor` | main.js:113 | main.js's `(profitPercent + 100) / 100`; specified by `FixedIsDegenerateRandom` |
| `Sizing.ProfitFactor` | main.js:113 | the factor each deployment applies (main.cjs:143 draws it); specified by `ProfitFactorAtLeastOne` |
| `Sizing.SellQuantityMerges` | main.cjs:144-148 | sell quantity = the carried amount (when > 0) plus 99.9% of the lot rounded to the nearest quantity tick |
| `Sizing.SellQuantityNoOversell` | main.js:112-116 | for a lot on the quantity grid, the sell quantity never exceeds the lot plus the carried amount |
| `Sizing.SellPriceBounds` | main.cjs:145-150 | while carrying, the sell price is Math.max(target, carry.boughtAt): ≥ both and equal to one of them; without a carry it is the target; the target lies within half a tick of boughtAt·profit |
| `Sizing.SellPriceAboveCost` | main.js:113-117 | with factor ≥ 1 and a buy price on the price grid, the sell price is never below the buy price |
| `Sizing.SellQuantity` | main.cjs:144-148 | the sell quantity of `setLimitSellOrder`; specified by `SellQuantityMerges` and `SellQuantityNoOversell` |
| `Sizing.SellPrice` | main.cjs:145-150 | the sell price of `setLimitSellOrder`; specified by `SellPriceBounds` and `SellPriceAboveCost` |
| `Trading.HighestFillPrice` | main.cjs:133-135 | a price exists exactly when there are fills |
| `Trading.HighestFillPriceIsHighest` | main.js:106-108 | for fills in ascending price order, the last fill's price is the highest paid |
| `Trading.PlaceSell` | main.cjs:142-165 | `setLimitSellOrder`: one sell, register cleared on success; specified by `FilledSellsOnce`, `MarketBuyAndSellOutcomes` and `Trading.Bot.SetLimitSellOrder` |
| `Trading.MarketBuyAndSell` | main.cjs:123-131 | `marketBuyAndSetLimitSell`; specified by `MarketBuyAndSellOutcomes`, `MarketBuyAndSellSells` and `Trading.Bot.MarketBuyAndSetLimitSell` |
| `Trading.Cycle` | main.cjs:65-109 | `nanoUsdtBuySell`; specified branch by branch by `LowBalanceNoOrders` … `LimitFailureMarketBuys`, and by `CycleCarryLaw` and `Trading.Bot.NanoUsdtBuySell` |
| `Trading.LowBalanceNoOrders` | main.cjs:67-70 | a failed book read, or usdtBalance < minOrderUsdt, sends no request and leaves the register unchanged |
| `Trading.LimitBuyFor` | main.cjs:194-200 | the `orderData` of `tryLimitOrder`: quantity `getNanosForPrice(middlePrice, budget)` at price middlePrice; specified by `CycleStartsWithLimitBuy` and `Sizing.LimitBuyCoversBudget` |
| `Trading.CycleStartsWithLimitBuy` | main.cjs:191-200 | otherwise the first request is a limit buy at middlePrice whose notional covers the budget |
| `Trading.FilledSellsOnce` | main.cjs:73-76 | FILLED: limit buy, then exactly one sell built from (executedQty, order.price); no fold; the register is cleared only if the sell succeeds |
| `Trading.PartialFoldsThenMarketBuys` | main.cjs:78-88 | PARTIALLY_FILLED with a successful cancel: the fill is folded (amount += qty, boughtAt := max), then the market-buy fallback runs on the folded register |
| `Trading.FailedCancelStops` | main.cjs:82-103 | a failed cancel: limit buy and cancel only; no fold, no market buy, register unchanged |
| `Trading.OtherStatusCancelsThenMarketBuys` | main.cjs:95-104 | another status: cancel, then the market-buy fallback with the register untouched |
| `Trading.LimitFailureMarketBuys` | main.cjs:105-108 | a limit-buy error goes straight to the market buy, with no cancel |
| `Trading.MarketBuyAndSellOutcomes` | main.cjs:123-131 | the fallback: a failed re-read sends nothing; a rejected buy or empty fills send no sell; otherwise one sell of executedQty at the last fill's price |
| `Trading.MarketBuyAndSellSells` | main.cjs:158-164 | the fallback sends at most one sell and clears the register exactly when that sell succeeds |
| `Trading.CycleCarryLaw` | main.cjs:158-164 | a cycle sends at most one sell; the register becomes (0,0) exactly when a sell was sent and succeeded, otherwise it is the old value, folded on a cancelled partial fill |
| `Trading.CarryIndependentOfVariant` | main.js:40-81 | both deployments change the register identically for the same replies |
| `Trading.SameShape` | main.js:45-81 | both deployments send the same kinds of request in the same order |
| `Trading.RunCarryMonotone` | main.js:126-131 | over any run of cycles whose sells all fail, carry amount and boughtAt never decrease |
| `Trading.Bot.constructor` | main.cjs:29-32 | the register starts at (0,0) |
| `Trading.Bot.FoldPartialFill` | main.js:57-58 | the in-place fold equals `Fold` of the old register |
| `Trading.Bot.SetLimitSellOrder` | main.js:110-133 | the reassigned nanoToSell/sellAt give `PlaceSell`'s request, and the register is reset only on success |
| `Trading.Bot.GetMarketBuyAmount` | main.js:146-153 | the in-place `nanos *= 1.01` computes `MarketBuyAmount`, on the quantity grid |
| `Trading.Bot.MarketBuyAndSetLimitSell` | main.js:96-104 | requests and new register equal `MarketBuyAndSell` |
| `Trading.Bot.NanoUsdtBuySell` | main.cjs:65-109 | requests and new register equal `Cycle` of the old register |
| `Trigger.SellPrices` | main.cjs:40 | exactly the prices of the SELL orders; no others |
| `Trigger.MinOf` | main.cjs:47-52 | the minimum: an element not above any other |
| `Trigger.LowestSellPrice` | main.cjs:47-52 | the forEach loop's result equals the minimum of the SELL prices |
| `Trigger.ShouldRunIff` | main.cjs:43-58 | a cycle runs iff every open SELL order is more than sellSpreadMax% above the lowest ask; that holds vacuously with no SELL orders |
| `Trigger.SpreadPercent` | main.cjs:53 | `percentDifference`, (price/lowestAsk − 1)·100; specified by `SpreadMonotone` and `ShouldRunIff` |
| `Trigger.SpreadMonotone` | main.cjs:53 | a higher sell price never gives a smaller spread above the same best ask, so the lowest SELL price has the smallest spread |
| `Trigger.ShouldRun` | main.cjs:43-58 | the book-aware decision on the minimum SELL price; specified by `ShouldRunIff`, `BuyOrdersIgnored` and `SpreadExample` |
| `Trigger.BuyOrdersIgnored` | main.cjs:40 | a BUY order (the only non-SELL side) inserted at any position of the listing never changes the decision |
| `Trigger.SpreadExample` | main.cjs:53-55 | sells at 10.05 and 10.10 against ask 10.00 with limit 0.3 run a cycle; against ask 10.04 they do not |
| `Trigger.CheckForEmptySellSide` | main.cjs:38-63 | runs iff the reads succeed and the decision holds; a failed read runs nothing |
| `Trigger.CounterClosedForm` | main.js:25-34 | after k ticks the counter is k mod everyXHours + 1, so it stays in [1, everyXHours] |
| `Trigger.FiresEveryNthTick` | main.js:28-30 | the k-th tick runs a cycle iff k is a multiple of everyXHours |
| `Trigger.FiresEveryTickWhenOne` | main.js:28 | with everyXHours = 1, every tick runs a cycle |
| `Trigger.NeverFiresWhenZero` | main.js:28 | with everyXHours = 0, no tick runs a cycle |
| `Trigger.HourlyCounter.constructor` | main.js:25 | the counter starts at 1 |
| `Trigger.Fires` | main.js:28 | `i % everyXHours === 0`, false for everyXHours = 0; specified by `FiresEveryNthTick` and `NeverFiresWhenZero` |
| `Trigger.NextCounter` | main.js:29-32 | reset to 1 on firing, otherwise increment; specified by `CounterClosedForm` and `Trigger.HourlyCounter.Tick` |
| `Trigger.HourlyCounter.Tick` | main.js:26-34 | fires iff i % everyXHours == 0, then resets to 1, otherwise increments; the counter stays in [1, everyXHours] |

## Left out

- **Exchange client.** The calls `accountInfo`, `book`, `order`, `getOrder`, `cancelOrder` and `openOrders` are not modelled as calls. Their results are inputs (`Trading.Outcomes`, `Trigger.SellSideRead`). Order ids are not modelled, so a cancel request carries no id.
- **Environment.** `dotenv` and `process.env` parsing is left out: `parseInt`, `parseFloat` and NaN settings. The configuration is given as reals and naturals (`Sizing.Config`). `main.cjs` reads `everyXHours` but never uses it, so that reading is not modelled.
- **Scheduling.** CronJob scheduling, the 15-minute and 5-second waits before polling, and promise chaining are left out. In `main.cjs`, cycles can overlap: a 20-minute trigger runs against a 15-minute wait. That is a concurrency hazard, not modelled. Each cycle is modelled as running alone.
- **Logging.** `console.log` output is left out.
- **Randomness.** `Math.random` is the parameter `u` of `Outcomes`.
- **Floating point.** IEEE-754 effects of `x * 10**d`, `0.999` and `1.01` are left out. Arithmetic is exact on `real`.
- **Unhandled rejection of the first book read.** When the first `getBook` of a cycle fails (main.cjs:67, main.js:40), the promise of `nanoUsdtBuySell` is rejected and no caller handles it (main.cjs:45, 57; main.js:30). On Node 15 and later that ends the process, and the register is lost with it. The model treats the failed read as a cycle that sends nothing (`Trading.LowBalanceNoOrders`), so `Trading.Run` and `Trading.RunCarryMonotone` describe runs in which the process survives such failures.
- **Null replies.** `openOrders` returning null (`array[0] || []`) is not modelled separately. A sequence is always given.
- **`fills.pop()`.** Its mutation of the reported fill list is not modelled. Nothing reads the list afterwards, so only the popped value, the last fill's price, is modelled.
- **Cycle requires.** `Trading.Cycle`, `Trading.Bot.NanoUsdtBuySell` and `Trading.Bot.MarketBuyAndSetLimitSell` require non-zero prices to divide by (`Trading.WellFormed`: the first book's mid-price and each best ask are positive). JavaScript would compute `Infinity` there and send an order the exchange rejects. `Snapshot.GetBookQuotable` shows the requirement holds whenever the top prices are at least one price tick.
- `Sizing.MarketBuyAmountHourly`: requires `minOrderUsdt >= 0`. With a negative budget, the 1% bump would lower the quantity, and "≥ UP(budget/lowestAsk)" would not hold.
- `Trigger.CheckForEmptySellSide`: requires a positive best ask when the reads succeed, because a zero or negative best ask is not a real quote. With SELL orders and a zero ask, JavaScript would compute `Infinity` (main.cjs:53), which exceeds any `sellSpreadMax`, and run a cycle; the model does not cover that case. With no SELL orders, main.cjs:43-45 runs a cycle without dividing.
