# Triangular-arbitrage decision core of the KuCoin script, in Dafny

This project models the decision core of `market/kucoin/index.js`, a script that
loops over a list of target coins, cycle after cycle. For each coin it reads the best entry of
three order books: pair Z (target-buy), pair Y (target-sell) and pair L (buy-sell).
From these it derives the prices and amounts of three legs. It then decides whether
routing the input amount through the cycle is profitable. If it is, it places three
limit orders and adds the cycle's percentage change to a running total.

The model follows this file, which is the older variant of the script:

- order books are read from `orders-sell` / `orders-buy`, and each entry is a
  `[price, volume]` pair;
- there is no price-selection strategy and no decimal rounding before the test;
- the trigger compares `YPrice > ZPrice * LPrice` and `change > 2 * fee`.

The newer variant of the script, which is not part of this model, differs from this
code in several ways, and the model follows this code:

- The newer variant uses rounded, fee-compounded `left`/`right` and the test `left < right`.
- Its cascade deflates the input amount after each cap. Here the fee amount is fixed
  once (line 135) and each cap only moves `ZAmount` (and `YAmount`, `LAmount`).
- It treats the amount check as a minimum. Here `isAmoutValid` accepts an amount
  only when it is **at most** the table entry, so the table entry bounds amounts from
  above.

Modules:

- `Arbitrage`: the cascade is the method `Cascade`. It reassigns its locals step by
  step, as the source does, and is proved equal to `CascadeSpec`, a closed form built
  from `Min`/`Max`. Also here: the minimum-amount check, the trigger, the three
  orders and the whole decision `Decide`.
- `JsNumber`: numbers are exact reals, plus the IEEE values `+Infinity`, `-Infinity`
  and `NaN`. `change` divides by `ZPrice * LPrice`, which can be zero. When the
  trigger fires on a zero product, the change is `+Infinity`, and `totalChange` then
  stays `+Infinity`.
- `Signing`: the string that the order signature is computed over. A parser recovers
  every order field from it, which proves that the signed message identifies the order.
- `Rotation`: `checkNextRun`, which picks the next coin index and the delay.
- `TradingLoop`: the class `Arbitrager`. It holds the configuration, the coin index
  and `totalChange` (a module-level variable in the source). `Trading` is one cycle and
  `Loop` is one cycle plus the scheduler step.

Inputs:

- The three order-book reads arrive as a `Fetch` parameter: either all three entries,
  or a failure.
- The millisecond nonce of an order is a parameter.
- The minimum-trade table (`mintrade.json`) is a `map<string, real>`.

## Model

| member | source | states |
|---|---|---|
| `Arbitrage.Cascade` | market/kucoin/index.js:135-157 | The stepwise capping gives the closed form `CascadeSpec`. Prices pass through unchanged. `ZAmount = YAmount + feeInputAmount`, with the fee computed once. `LAmount = ZPrice * ZAmount`. |
| `Arbitrage.CascadeCapsHold` | market/kucoin/index.js:139-157 | For `ZPrice >= 0`, each leg amount ends at most its book's volume. |
| `Arbitrage.CascadeNeverGrows` | market/kucoin/index.js:135-156 | For `ZPrice >= 0`, no cap raises an amount: `ZAmount <= input + fee`, `YAmount <= input`, and `LAmount <= ZPrice * (input + fee)`. |
| `Arbitrage.CascadeMaximal` | market/kucoin/index.js:139-157 | For `ZPrice > 0`, `ZAmount` is the largest amount that respects the input and all three volumes. |
| `Arbitrage.PairSymbolSplits` | market/kucoin/index.js:125-127 | A pair symbol `base-quote` splits back into its two coins when the base coin has no `-`. It has no `/` when its coins have none. |
| `Arbitrage.BookEndpoints` | market/kucoin/index.js:129-131 | Three read paths: Z and L from the sell side, Y from the buy side. The Y path differs from both others. The Z and L paths coincide exactly when the two pairs do. |
| `Arbitrage.IsAmountValid` | market/kucoin/index.js:118-120 | A valid amount needs the coin in the table, and the amount is at most the table entry. A coin missing from the table is never valid. |
| `Arbitrage.AmountCheckBoundsAbove` | market/kucoin/index.js:118-120 | A zero (falsy) entry rejects every amount. A non-zero entry accepts exactly the amounts up to it. The check is closed downwards. |
| `Arbitrage.CheckMinAmount` | market/kucoin/index.js:160 | When it holds, both target-coin amounts are at most the target entry and the L amount is at most the buy-coin entry. |
| `Arbitrage.PercentChange` | market/kucoin/index.js:164 | A non-zero divisor gives a finite change. For a positive divisor the change is positive iff `left > right`. For a zero divisor the change is `+Infinity` iff `left > 0`, and `NaN` iff `left == 0`. |
| `Arbitrage.PercentChangeAbove` | market/kucoin/index.js:164-165 | For a positive divisor, change `> k` iff `left > right * (1 + k/100)`. |
| `Arbitrage.Trigger` | market/kucoin/index.js:159-165 | `condition` iff the amount check passes, `YPrice > ZPrice*LPrice`, and (for a non-zero product) `(YPrice/(ZPrice*LPrice) - 1)*100 > 2*fee`. A triggered change is `+Infinity` or finite above `2*fee`. |
| `Arbitrage.TriggerGating` | market/kucoin/index.js:162-165 | `condition` is false when `YPrice <= ZPrice*LPrice`, when a finite change is `<= 2*fee`, or when an amount check fails. `right > 0 && left > right` gives a positive change. |
| `Arbitrage.TriggerBeatsFees` | market/kucoin/index.js:162-165 | A fired trigger with a positive price product means `YPrice > ZPrice*LPrice*(1 + fee/50)`. |
| `Arbitrage.ExecutedOrders` | market/kucoin/index.js:170-176 | Orders are placed iff `condition` holds, and then exactly three: BUY on target-buy, SELL on target-sell, BUY on buy-sell, each at its book's price. Each amount is at most its table entry and, for `ZPrice >= 0`, at most its book's volume. |
| `Signing.QueryString` | market/kucoin/index.js:39 | The query string is `amount=…&price=…&type=…`, built from the parameter names in `QueryKeys`, with no `?` and no encoding. |
| `Signing.QueryKeysAscending` | market/kucoin/index.js:37-39 | The parameter names are in strictly ascending lexicographic order. |
| `Signing.QueryRoundTrip` | market/kucoin/index.js:39 | `ParseQuery` recovers amount, price and side from the query string when the amount and price hold no `&`. |
| `Signing.DecimalString` | market/kucoin/index.js:41 | The rendered nonce is a non-empty string of decimal digits. |
| `Signing.DecimalRoundTrip` | market/kucoin/index.js:41 | Parsing the rendered nonce gives the nonce back. |
| `Signing.SigningRoundTrip` | market/kucoin/index.js:28-41 | `endpoint + "/" + nonce + "/" + queryString` parses back into pair, nonce, amount, price and side. |
| `Signing.SigningInjective` | market/kucoin/index.js:41-47 | Two well-formed orders with the same signing string are equal, so the signature covers every field. |
| `Rotation.CheckNextRun` | market/kucoin/index.js:210-216 | The delay is 3000 iff `index + 1 == count`, and 1000 otherwise. For `index < count`, the next index is `(index + 1) mod count`, which stays below `count`. |
| `Rotation.IndexAfterIsMod` | market/kucoin/index.js:204-221 | After `n` steps from coin 0, the index is `n mod count`. |
| `Rotation.WrapsArePasses` | market/kucoin/index.js:210-220 | `n` steps from coin 0 wrap around exactly `n / count` times. |
| `Rotation.TotalDelayOfSteps` | market/kucoin/index.js:210-220 | The delays chosen by the first `n` steps sum to `1000*n + 2000*(n / count)` ms. |
| `TradingLoop.AccumulatedIsSum` | market/kucoin/index.js:178-181 | Adding each executed change in turn gives the sum of the executed cycles' changes. The exception is a `+Infinity` change, which the total then keeps. |
| `TradingLoop.AccumulatedExtend` | market/kucoin/index.js:181 | Appending a cycle to the history adds its change to the total exactly when it executed. The history stays admissible when the change is finite or `+Infinity`. |
| `TradingLoop.Arbitrager.constructor` | market/kucoin/index.js:17-21 | The loop starts at coin 0 with `totalChange = 0` and nothing run yet. |
| `TradingLoop.Arbitrager.Trading` | market/kucoin/index.js:122-198 | A failed read decides nothing. Otherwise the outcome is `Decide` on the books. `totalChange` grows by `change` only when the trigger fires. It stays the accumulated total of the history extended by this outcome. |
| `TradingLoop.Arbitrager.Loop` | market/kucoin/index.js:204-231 | Runs one cycle, then takes the scheduler step after a failed read and after a decision alike. The new index is `cycles mod count`. `totalChange` is the sum of executed changes, or `+Infinity`. |

## Left out

- HTTP: `request` in `requestOrderApi` and `requestPublicApi` (lines 49-80, 88-95). The
  three reads are the `Fetch` parameter, and the placed orders are returned, not sent.
- Response decoding: `mapBody` (lines 103-114) and the order reply at line 71. A read
  that fails or has no entry is `FetchFailed`. The status strings that order
  submissions resolve with are not modelled.
- An order reply that is not JSON: `JSON.parse(body)` at line 71 throws inside the
  `request` callback, before `resolve` at line 77, and nothing catches it. That order
  step never resolves, `totalChange += change` (line 181) and `checkNextRun` (lines
  226, 230) never run, and the process stops. The model assumes every order
  submission resolves. So it always adds the change of an executed cycle and always
  takes the next scheduler step.
- The base64 encoding and HMAC-SHA256 digest (lines 43-47), which are foreign library
  calls. Only the string they are computed over is modelled.
- `Promise.all`, `setTimeout` and the asynchronous ordering (lines 133, 178, 218). Only
  the next index and delay are modelled, not the waiting.
- `toFixed(6)` / `toFixed(8)` rendering of amounts and prices (lines 172-185) and the
  coloured change string (line 167). The signing string takes amount and price as
  already-rendered strings.
- Startup: config and credential loading and the global reassignment in `run`
  (lines 240-268). Console and log-file output (lines 78, 169, 186, 208, 216).
- Floating-point rounding and overflow: numbers are exact reals. The sign of zero is
  not modelled either: a zero price product that JavaScript computes as `-0` would
  give `-Infinity` where the model gives `+Infinity`.
- Arbitrage.Cascade: requires `CascadeDefined`, which excludes a zero Z price together
  with a negative L volume. There JavaScript divides by zero at line 155 and goes on
  with an infinite `ZAmount`.
- TradingLoop.Arbitrager.constructor: requires a non-empty rotation list. With an
  empty list the source fails at `targetPair[0].coin` (line 206).
