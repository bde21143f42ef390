# Asset: a verified model of one investment position

This project models the `Asset` class of pollofolio (`src/asset.js`), the
valuation engine of a single investment position. An asset holds the
transaction facts of the position: buy and sell dates, buy and sell totals,
amount, buy price and currency. It also holds a date→price time series, a
year→payout map and optional reference levels (target price, yearly high,
yearly low). From this state it derives its metrics on demand: last price,
value, change, change percentage, last-day change, distance to the yearly
high and to the target price, missed gain, stop-loss level and alarm, return,
income, short-hold ROI and alpha against a benchmark. A position is closed
exactly when it has a sell date. Most derived metrics report `null` (here
`None`) when their inputs are missing; a few instead compute with the
missing input read as 0, as listed below.

Files:

- `wrappers.dfy`: `Option`, the model of `null`.
- `numbers.dfy`: how the class's arithmetic treats JavaScript numbers.
  A stored number is a `real`. A computed metric is a `Value`: `Finite(x)`
  or `NonFinite`, which stands for Infinity, -Infinity and NaN after a
  division by zero. `null` and the `""` sentinel of the amount fields read
  as 0 in arithmetic.
- `text.dfy`: ASCII upper-casing, used for tickers. The lexicographic
  string order that the default `sort()` uses.
- `series.dfy`: the time series, an insertion-ordered object modelled as
  the list of its `(date, price)` pairs. Provides lookup, upsert and
  date sorting.
- `payouts.dfy`: the payout map, the legacy list form and its
  normalisation, and the sum of the payout values.
- `asset.dfy`: the class `Position.Asset`, its setters, metrics and
  lemmas. The bulk time-series assignment is specified by
  `AssignedSeries`.

Settings that the class reads from the global application store are
parameters here: the stop-loss rule `{date, pct}` (`StopLossRule`) and the
benchmark's price series. The exchange-rate effect `forexChange` is a
parameter of `CurrentValue` and of the metrics that use the value.

Points where the code behaves in a way that is easy to misread:

- Bulk assignment of the time series writes under `lastChecked` the last
  price of the new, sorted series (src/asset.js:139-140), because it runs
  after `_timeseries` has been replaced. A price the series held before the
  assignment is not kept.
- `hasAlarm()` is `stopLoss > lastPrice` with JavaScript's `null → 0`
  conversion. A null stop loss raises the alarm when the last price is
  negative. `HasAlarm` states all three cases, and `NoStopLossNoAlarm`
  proves that without a stop loss there is no alarm for non-negative
  prices.
- `highPrice` of an empty series is `-Infinity`, not 0. The model claims
  nothing about that case.
- `changePct` of an open position without a truthy last price is
  `(null / buyValue) * 100`: 0, or NaN when the buy value is `""` or 0
  (src/asset.js:190-193, with `change` null at :346). `ChangePct` states
  this case.
- `lastChange` of a closed position with two or more dates is
  `null * buyValue`, which is 0 (src/asset.js:152-155). `LastChange`
  states this case.
- `missedGain` of a closed position whose high lies above its last price
  is 0, not null: the null value reads as 0. The model reproduces this
  and claims nothing more about it.
- The constructor assigns the time series before `lastChecked`
  (src/asset.js:15, 27). So building a position never re-asserts a price.
  The constructor's postcondition says so.

## Model

| member | source | states |
|---|---|---|
| `Position.Asset.constructor` | src/asset.js:4-31 | every field is the setter-normalised value of the raw record (an absent record acts as `{}`); the series is the sorted input with no re-assert, because `lastChecked` is set last |
| `Position.OrNull` | src/asset.js:37-48 | a falsy `id`/`currency` input is stored as null; anything kept is the non-empty input; the date setters at src/asset.js:60-64 and :105-108 use the same rule |
| `Position.OrEmpty` | src/asset.js:114-117 | `name` is the input when truthy, otherwise `""` |
| `Position.NormTicker` | src/asset.js:123-126 | the ticker is `""` for a falsy input, otherwise the input upper-cased character by character: same length, no lower-case letter left, every other character kept |
| `Position.NormAmount` | src/asset.js:199-217 | `buyValue`, `sellValue` and `amount` are `""` exactly when the input is falsy, otherwise the input number (never 0) |
| `Position.NormLevel` | src/asset.js:66-88 | target price, yearly high and low are null exactly when the input is falsy, otherwise the input (never 0); the `buyPrice` setter at src/asset.js:227-229 uses the same rule |
| `Position.NormalizeStable` | src/asset.js:5-20 | re-loading a stored field through its setter stores the same value again (ticker upper-casing is idempotent) |
| `Position.Asset.SetId` | src/asset.js:37-40 | stores `OrNull` of the input |
| `Position.Asset.SetCurrency` | src/asset.js:46-48 | stores `OrNull` of the input |
| `Position.Asset.SetName` | src/asset.js:114-117 | stores `OrEmpty` of the input |
| `Position.Asset.SetTicker` | src/asset.js:123-126 | stores the normalised ticker |
| `Position.Asset.SetAmount` | src/asset.js:215-217 | stores `NormAmount` of the input |
| `Position.Asset.SetBuyValue` | src/asset.js:199-201 | stores `NormAmount` of the input |
| `Position.Asset.SetSellValue` | src/asset.js:207-209 | stores `NormAmount` of the input |
| `Position.Asset.SetBuyPrice` | src/asset.js:227-229 | stores `NormLevel` of the input |
| `Position.Asset.SetTargetPrice` | src/asset.js:82-88 | stores `NormLevel` of the input, and the getter then reads the same |
| `Position.Asset.SetYearlyHigh` | src/asset.js:66-72 | stores `NormLevel` of the input, and the getter then reads the same |
| `Position.Asset.SetYearlyLow` | src/asset.js:74-80 | stores `NormLevel` of the input, and the getter then reads the same |
| `Position.Asset.TargetPrice` | src/asset.js:86-88 | null exactly when the stored level is null or 0, otherwise the stored non-zero level |
| `Position.Asset.YearlyHigh` | src/asset.js:70-72 | null exactly when the stored level is null or 0, otherwise the stored non-zero level |
| `Position.Asset.YearlyLow` | src/asset.js:78-80 | null exactly when the stored level is null or 0, otherwise the stored non-zero level |
| `Position.Asset.SetDateBuy` | src/asset.js:55-64 | a falsy date leaves no buy date, and the getter then reads null |
| `Position.Asset.SetDateSell` | src/asset.js:100-108 | the position is closed exactly when a truthy sell date was given; the getter then reads that date, or `""` |
| `Position.Asset.Lifecycle` | src/asset.js:333-336 | `isSold()`: closed exactly when the `dateSell` getter is non-empty |
| `Position.Asset.DateSellText` | src/asset.js:100-103 | the `dateSell` getter reads `""` while open and the sell date once closed: feeding it back to the setter stores the same sell date |
| `Position.Asset.DateBuyText` | src/asset.js:55-58 | the `dateBuy` getter reads null exactly while no buy date is set; feeding it back to the setter stores the same buy date |
| `Position.AssignedSeries` | src/asset.js:132-141 | the series after assignment: no date repeats, a falsy input gives an empty series, no input date is lost, and every date other than `lastChecked` reads its input price |
| `Position.Asset.SetTimeseries` | src/asset.js:132-141 | the new series is the input's dates in ascending order, each with its input price, followed by the conditional re-assert at `lastChecked`; no date is repeated |
| `Position.AssignedFromNothing` | src/asset.js:133-134 | a falsy input or an empty object gives an empty series |
| `Position.AssignedWithoutReassert` | src/asset.js:135-140 | with no `lastChecked`, on a closed position, or when the sorted input's last price is falsy: strictly ascending dates, exactly the input's dates, each reading the input's price |
| `Position.AssignedWithReassert` | src/asset.js:138-140 | open with `lastChecked` and a truthy last price: `lastChecked` reads that last price, every other date reads its input price, and the dates stay ascending when `lastChecked` is not before any input date |
| `Position.AssignedCanonical` | src/asset.js:135-137 | the result depends only on the input's contents: an unsorted input gives the same series as the same input pre-sorted |
| `Series.SortKeysSpec` | src/asset.js:135-136 | sorting distinct dates gives them in strictly ascending order, none lost or added |
| `Series.SortedSpec` | src/asset.js:133-137 | the rebuilt series has exactly the input's dates, ascending, and every date reads the input's price |
| `Series.SortedCanonical` | src/asset.js:135-137 | two inputs that read the same at every date rebuild to the identical series |
| `Series.SortedIdempotent` | src/asset.js:135-137 | rebuilding an already rebuilt series changes nothing |
| `Series.UpsertSpec` | src/asset.js:96 | `s[k] = v` makes `k` read `v`; every other key reads as before; an existing key keeps its position, a new key is appended last; other pairs stay in place; no key repeats |
| `Position.Asset.SetLastPrice` | src/asset.js:94-98 | on an open position with `lastChecked` and a truthy price, it upserts that single entry, and `lastChecked` then reads the price; if `lastChecked` was new or the last date, `lastPrice` becomes the price; otherwise it is a no-op |
| `Position.Asset.Dates` | src/asset.js:148-150 | `dates` lists one entry per pair, and exactly the dates a lookup finds |
| `Position.Asset.Prices` | src/asset.js:144-146 | `prices` lists one entry per date, each the price a lookup of the date at the same position finds |
| `Position.Asset.LastPrice` | src/asset.js:90-92 | null exactly for an empty series, otherwise the price stored under the last date in map order |
| `Series.MaxPrice` | src/asset.js:50-53 | the maximum is one of the prices and no price exceeds it |
| `Position.Asset.HighPrice` | src/asset.js:50-53 | for a non-empty series, a finite value that is one of the prices and at least every price |
| `Position.Asset.Invested` | src/asset.js:157-160 | null exactly when closed, otherwise the buy value |
| `Position.Asset.Change` | src/asset.js:342-347 | null exactly when closed or without a truthy last price; finite exactly when the buy price is non-zero |
| `Position.Asset.ChangeSign` | src/asset.js:342-347 | with a positive buy price and buy value, the change is positive, zero or negative as the last price is above, at or below the buy price |
| `Position.Asset.ChangePct` | src/asset.js:190-193 | null exactly when closed; for a finite change and non-zero buy value, `changePct * buyValue == change * 100`; with no change (no truthy last price), 0 for a non-zero buy value and NaN otherwise |
| `Position.Asset.LastChangePct` | src/asset.js:182-188 | null exactly when closed or with fewer than two dates; finite exactly when the second-to-last price is non-zero, and then `(r + 1) * previous == lastPrice` |
| `Position.Asset.LastChange` | src/asset.js:152-155 | null exactly with fewer than two dates; otherwise the last-day move applied to the buy value, and 0 on a closed position |
| `Position.Asset.CurrentValue` | src/asset.js:219-225 | null exactly when closed or without a truthy last price; with a non-zero buy price and a finite exchange effect, `value - forexChange == lastPrice / buyPrice * buyValue` |
| `Position.Asset.ValueIsCostPlusChange` | src/asset.js:219-225 | without an exchange effect, value equals buy value plus change |
| `Position.Asset.Example` | src/asset.js:342-347 | prices 100 then 110, buy price 100, buy value 1000, open: last price 110, value 1100, change 100, change 10 %, last-day change 0.1 |
| `Position.Asset.DiffToYearlyHigh` | src/asset.js:170-174 | null exactly when closed, without a yearly high or without a truthy last price; otherwise the value rescaled to the yearly high, minus the value |
| `Position.Asset.DiffToTargetPrice` | src/asset.js:176-180 | null exactly when closed, without a target price or without a truthy last price; otherwise the value rescaled to the target, minus the value |
| `Position.RescaleSign` | src/asset.js:170-180 | for a positive value and price, the distance to a level is positive, zero or negative as the level is above, at or below the price |
| `Position.Asset.MissedGain` | src/asset.js:294-299 | non-null exactly when the last price is truthy and the high price is non-zero and above it; then `(highPrice / lastPrice) * value - value`, where a null value reads as 0, so a closed position gets 0 |
| `Position.Asset.MissedGainPositive` | src/asset.js:294-299 | with a positive last price and a positive finite value, the missed gain is positive |
| `Position.Asset.SoldHasNoOpenMetrics` | src/asset.js:170-193 | a closed position reports null for invested, change, change percentage, last-day change percentage, value, both distances and relative change |
| `Position.Asset.StopLoss` | src/asset.js:235-240 | null unless the price at the rule's date is truthy and the percentage positive; otherwise `baseline * (1 - pct/100)`, strictly below a positive baseline and not negative for `pct <= 100` |
| `Position.Asset.HasAlarm` | src/asset.js:338-340 | with both sides present, exactly `stopLoss > lastPrice`; a missing side reads as 0 |
| `Position.Asset.NoStopLossNoAlarm` | src/asset.js:338-340 | without a stop-loss level and with a non-negative or missing last price, there is no alarm |
| `Position.Asset.RelativeChange` | src/asset.js:273-292 | non-null exactly when open, with dates, a benchmark, a buy date and truthy benchmark prices at the buy date and at its end; then `alpha + benchmark % move == changePct` |
| `Position.Asset.IsUpdated` | src/asset.js:322-331 | up to date exactly when the ticker is non-empty, `lastChecked` is `today`, and the last price is truthy while open or the series is non-empty once closed; an up-to-date position always has price data |
| `Position.Asset.SetPayouts` | src/asset.js:247-254 | the stored payouts are the normalised input: empty for a falsy input, the folded list, or the given map |
| `Payouts.FromListYears` | src/asset.js:250-252 | the years of the folded list are exactly the years its records mention |
| `Payouts.FromListLastWins` | src/asset.js:250-252 | for a repeated year, the last record's value is kept |
| `Payouts.FromListTotal` | src/asset.js:247-254 | a list naming each year once folds to a map with the same total |
| `Payouts.SumOverRemove` | src/asset.js:303-304 | the payout sum does not depend on the order in which the years are visited |
| `Payouts.TotalInsert` | src/asset.js:301-306 | no payouts sum to 0; a payout for a new year adds its value to the total |
| `Position.Asset.Income` | src/asset.js:301-306 | the loop returns the total of all payout values |
| `Position.Asset.Return` | src/asset.js:162-168 | the result is `Earnings()`: closed, sell value minus buy value plus income; open, income alone |
| `Position.Asset.ShortHoldRoi` | src/asset.js:268-270 | for a holding period of at most 365 days or unknown: finite exactly when the buy value is non-zero, and then `roi * buyValue == return * 100` |

## Left out

- ShortHoldRoi: the annualised branch for holding periods over 365 days (src/asset.js:258-267) is not modelled. It raises a ratio to a fractional power with `Math.pow`, which is floating-point behaviour.
- `holdingPeriod` and `getYear` (src/asset.js:308-320) are not modelled. They read the wall clock, subtract dates in milliseconds and depend on the time zone. `isUpdated` takes `today` as a parameter instead of reading the clock.
- `forexChange` (src/asset.js:349-366) is not computed. It reads the clock and the exchange-rate table of the store. It is a parameter of `CurrentValue` and of the metrics built on it; a null there adds 0, as in JavaScript.
- The global `store` is not modelled. The stop-loss rule and the benchmark series are parameters.
- Library conversions are not modelled; the model takes typed values. This covers `parseFloat`, `toString`, `new Date(...)` with `toISOString`, and malformed inputs such as an invalid date or a non-numeric string. Dates are their ISO `YYYY-MM-DD` strings.
- Text.Upper: upper-cases ASCII letters only. JavaScript's `toUpperCase` also maps other Unicode letters.
- Text.Less: compares Unicode scalar values. The default `sort()` compares UTF-16 code units. The two agree on ISO dates and on every string without characters outside the Basic Multilingual Plane.
- Object key order is modelled as insertion order. JavaScript lists integer-like keys first, in numeric order. This does not affect ISO date keys. Payouts are modelled as an unordered map, because only their sum is used; the order in which the `payouts` getter lists its entries (src/asset.js:242-245) is not modelled.
- The `payouts` setter keeps a given map object itself, so it is shared with the caller (src/asset.js:253). The model copies the map's value; aliasing is not modelled.
- IEEE rounding is not modelled: prices and totals are exact reals. Infinity, -Infinity and NaN are one `NonFinite` value, and the model does not tell them apart.
- `highPrice` of an empty series is `-Infinity` in JavaScript. The model returns `NonFinite` and states nothing about it.
- A missing buy date reads as null. `relativeChange` then looks up the key `"null"` in the benchmark series. The model treats it as a missing price.
- The presentation fields are not modelled because they carry no logic: `peRatio`, `address`, `industry`, `description`, `error`, `news` and `signal` (src/asset.js:23-30).
- The `return` getter also caches its result in `this._return` (src/asset.js:165-167). Nothing in the class reads that field, so the model has no such field and `Return` changes nothing.
- Concurrency is not modelled: the class is single-threaded.
