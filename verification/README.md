# Truncated intraday beta estimator

This project models the estimator pipeline of `calc.go` over Dafny `real`s.
The pipeline turns intraday price bars of an asset and of an index into one
beta per rolling window of `L` days with `n` slots each. It runs in five
stages:

1. **Returns.** Each bar gives one log return.
2. **Variation.** Each whole day gets its realized variation (RV), a sum of
   squares, and its bipower variation (BV), pi/2 times the sum of adjacent
   absolute products.
3. **Time of day.** Each window start `s` and slot `tau` gets a time-of-day
   factor (TOD). It is computed over an `L`-day window of returns. Position
   `i` of the window is truncated with the limit
   `limitK * sqrt(min(BV, RV))` of day `s + i / n`. With the window starting
   at return `s`, as the code has it, that need not be the day the return
   belongs to (see "## Findings").
4. **Thresholds.** Each window start and slot gets the threshold
   `limitK * sqrt(min(BV, RV) * TOD)`. These are laid out at position
   `s * n + tau` of a table of `len(rs) - L * n` entries.
5. **Beta.** Each window gets a truncated beta. Three sums are kept, each
   behind its own test. The thresholds are read cyclically at `i % n`, and
   the result is `dividend / (4 * divisor)`.

A driver aligns the index with the asset by the first matching date and
resamples dates and closing prices to one row per day.

## How the model is set up

- **Parameters.** `L`, `n` and `limitK` are fields of a `Config` rather
  than the constants at `calc.go:14-19`.
- **Library functions.** `math.Sqrt`, `math.Log` and `math.Pi` are fields
  of a `Math` value. The only things known about them are `Pi > 0` and
  `Sqrt(x) >= 0` for `x >= 0`.
- **Undefined results.** A float64 result that may be NaN or infinite is an
  `Estimate`: `Defined(v)` or `Undefined`.
  - Every comparison with an undefined threshold fails, as every float64
    comparison with NaN does.
  - `k / kIndex` with `kIndex == 0` follows float64 division
    (`AtMostQuotient`).
- **Sequential loops.** The goroutine fan-outs are modelled as sequential
  loops. Each task writes its own position, and `Thresholds.WritePositions`
  shows that no two tasks share one. So the order of the tasks does not
  matter, and one loop over the position that appends each entry builds
  the same table.
- **Two layouts.** The two defects listed under "## Findings" are kept
  selectable through `TimeOfDay.Layout`:
  - `AsWritten` is the code as it stands.
  - `Corrected` is the evidently intended behaviour.

  The TOD stage, the members of `Thresholds` and the driver
  `Windows.BetasForCode` take the layout as a parameter, and their contracts
  hold for both layouts. `Beta.ContinuousBeta` and `Windows.ContinuousBetas`
  only read the threshold table, so they take no layout.
- **Edge cases as the code has them.**
  - Insufficient data means at most `L * n` bars (`calc.go:53`). With
    `L * n < len < L * n + n` bars, `n` does not divide `len`, so the code
    hangs in `GetKs` (see "Hang when `n` does not divide `len(rs)`" under
    "## Left out"). The model instead returns a `Report` with no rows,
    provided the index series reach the alignment offset.
  - A zero divisor yields NaN or an infinity, not an error.
  - The window start and the dividend test follow the code (see
    "## Findings").
  - When the asset's first date is not among the index dates, the
    alignment offset defaults to 0.

## Model

| member | source | states |
|---|---|---|
| Returns.GetRs | calc.go:199-208 | one return per bar; return `i` is `Log(close_i) - Log(open_i)` of bar `i` |
| Variation.RV | calc.go:224-230 | the running sum equals the sum of the day's squared returns and is non-negative |
| Variation.BV | calc.go:212-220 | with `former` starting at 0, the loop yields pi/2 times the sum of adjacent products `abs(r_j) * abs(r_(j+1))`, so the first return alone contributes nothing; the result is non-negative |
| Variation.RVNonneg | calc.go:224-230 | RV of any day is at least 0 |
| Variation.BVNonneg | calc.go:212-220 | BV of any day is at least 0 when pi is positive |
| Variation.AdjacentBelowSquares | calc.go:212-230 | the adjacent products sum to at most the squares' sum less half the last square |
| Variation.BVAtMostScaledRV | calc.go:212-230 | BV never exceeds pi/2 times RV: the jump-robust proxy is bounded by the jump-sensitive one |
| Variation.DailyStats | calc.go:155-171 | one BV and one RV per whole day `len/n`, each from the day's own slice `d*n .. (d+1)*n`, all non-negative |
| TimeOfDay.LimitAt | calc.go:238-239 | the limit at window position `i` is `limitK * sqrt(min(BV, RV))` of day `i / n`; it is non-negative whenever the BVs and RVs are |
| TimeOfDay.Tod | calc.go:249 | the factor is undefined (0/0) exactly when the divisor is 0; a defined factor lies in `[0, n]`, because each slot's dividend is a part of the divisor |
| TimeOfDay.TodAtTau | calc.go:235-251 | the scan yields `n * dividend / divisor` over the truncated window, undefined exactly when the divisor is 0, and any defined value lies in `[0, n]` |
| TimeOfDay.TodSums | calc.go:236-248 | the loop's two accumulators equal the sum of kept squares counting for `tau` and the sum of all kept squares |
| TimeOfDay.NextLimit | calc.go:238-240 | the limit in force at position `i` is that of day `i / n`; it is recomputed when `i % n == 0` and carried over otherwise |
| TimeOfDay.TodStep | calc.go:241-247 | a return within its day's limit adds its square to the divisor, and to the dividend when it counts for `tau`; otherwise nothing changes |
| TimeOfDay.DividendAtMostDivisor | calc.go:241-247 | `0 <= dividend <= divisor` for every slot |
| TimeOfDay.UndefinedIff | calc.go:249 | the factor is undefined exactly when every kept return is 0, and a zero divisor always comes with a zero dividend (0/0, NaN) |
| TimeOfDay.AsWrittenDividendIsOnePosition | calc.go:243-245 | as written, slot `tau`'s dividend is just the square at window position `tau` when kept, else 0 |
| TimeOfDay.DividendsTotal | calc.go:241-247 | the dividends of slots `0 .. t-1` add up to the kept squares counting for one of those slots |
| TimeOfDay.ProfileSum | calc.go:249 | the factors of all `n` slots sum to `n / divisor` times the kept squares that count for some slot |
| TimeOfDay.CorrectedProfileSumsToN | calc.go:243 | with the slot test `i % n == tau`, the factors of every window sum to exactly `n` |
| TimeOfDay.AsWrittenProfileBelowN | calc.go:243 | as written, the factors sum to strictly less than `n` once a non-zero return past the first day survives truncation |
| TimeOfDay.ProfileAtMostN | calc.go:241-249 | under either layout the factors of a window sum to at most `n` |
| Thresholds.WindowFits | calc.go:173-176 | window `s`'s slice of `L * n` returns lies inside the series, and the statistics from day `s` on cover every day it spans |
| Thresholds.Window | calc.go:176 | the scanned window has exactly `L * n` returns |
| Thresholds.Combine | calc.go:188 | a NaN factor gives a NaN threshold; non-negative BV, RV and factor give a defined non-negative threshold |
| Thresholds.ThresholdAt | calc.go:188 | the threshold of window start `s`, slot `tau` is NaN exactly when that window's factor is NaN |
| Thresholds.ThresholdNonneg | calc.go:183-192 | every defined threshold is non-negative |
| Thresholds.WritePositions | calc.go:173-188 | positions `s*n+tau` lie below `(days-L)*n <= len - L*n`, decode back to `(s, tau)`, and coincide only for the same pair |
| Thresholds.Coverage | calc.go:155-181 | the write positions leave exactly `len % n` table entries unwritten, so they cover the table iff `n` divides `len(rs)` |
| Thresholds.SlotInTable | calc.go:173-176 | a written position `p` belongs to the valid window start `p / n` and lies in the table |
| Thresholds.TodTable | calc.go:172-181 | the TOD table has `len - L*n` entries; entry `p` is the factor of window start `p / n`, slot `p % n`; the unwritten tail stays 0 |
| Thresholds.TodEntry | calc.go:176 | one task: the factor of window `p / n`, slot `p % n`, on the window slice and the statistics from day `p / n` on |
| Thresholds.ThresholdTable | calc.go:183-193 | entry `p` combines the BV and RV of day `p / n` with TOD entry `p`; the unwritten tail stays 0 |
| Thresholds.GetKs | calc.go:154-197 | the threshold table has `len - L*n` entries, holds the threshold of `(p / n, p % n)` at every written `p`, 0 in the tail, and nothing negative |
| Thresholds.TableNonneg | calc.go:183-192 | a table of thresholds with a zero tail has no negative defined entry |
| Thresholds.ThresholdAtSlot | calc.go:188 | entry `s*n+tau` of the table is the threshold of window start `s`, slot `tau`, built from day `s`'s own BV and RV |
| Thresholds.CorrectedWindowAligned | calc.go:176 | with the window starting at `s*n`, window position `i` is slot `i % n` of day `s + i / n`, and the limit that truncates it is day `s + i / n`'s own |
| Thresholds.AsWrittenWindowMisaligned | calc.go:176 | as written (`n >= 2`, `s >= 1`), the first return scanned is `rs[s]`, which lies on day `s / n < s`, yet the limit that truncates it is day `s`'s |
| Numerics.AtMostQuotient | calc.go:131 | `x <= k / kIndex` with float64 division: for `kIndex > 0` it is `x * kIndex <= k`, for `kIndex < 0` it is `x * kIndex >= k`, and for `kIndex == 0` it holds exactly when `k > 0` (`+Inf`) |
| Beta.PlusKept | calc.go:128 | the added test passes exactly when both thresholds are defined (a NaN fails every comparison) and `-(k*kIndex) <= r + rIndex <= k*kIndex` |
| Beta.MinusKept | calc.go:131 | the subtracted test fails on a NaN threshold; with `kIndex == 0` it passes exactly when `k > 0`; with `kIndex > 0` exactly when `abs(r-rIndex) * kIndex <= k` |
| Beta.IndexKept | calc.go:134 | the divisor test passes exactly when `kIndex` is defined and `-kIndex <= rIndex <= kIndex` |
| Beta.BetaOf | calc.go:137-138 | the beta is undefined exactly when the divisor is 0; since the divisor is never negative, a defined beta is non-negative exactly when the dividend is |
| Beta.ContinuousBeta | calc.go:122-140 | the loop's result is the beta of the three independently truncated sums, undefined when the divisor is 0 |
| Beta.BetaStep | calc.go:125-136 | observation `i`, with the thresholds of slot `i % n`, adds `(r+rIndex)^2` when `abs(r+rIndex) <= k*kIndex`, subtracts `(r-rIndex)^2` when `abs(r-rIndex) <= k/kIndex`, and adds `rIndex^2` to the divisor when `abs(rIndex) <= kIndex` |
| Beta.UndefinedIff | calc.go:134-138 | the divisor is non-negative; the beta is undefined exactly when every index return passing the index test is 0 |
| Beta.ReadsOneDayOfThresholds | calc.go:124-126 | only the first `n` thresholds and the first `len(rs)` index returns decide the beta |
| Beta.UntruncatedIsRegressionBeta | calc.go:128-138 | when nothing is truncated, the beta is the regression beta `sum(r*rIndex) / sum(rIndex^2)` |
| Beta.SelfBetaIsOne | calc.go:125-138 | against itself, a window whose observations all pass the added and index tests has a beta of exactly 1 |
| Beta.SelfBetaAtMostOne | calc.go:125-138 | against itself, with every threshold in `(0, 2]` and a non-zero divisor, the beta is defined and lies in `[0, 1]` |
| Windows.IndexCoversEveryWindow | calc.go:93-109 | `IndexCovers`, a test of the last window only, holds exactly when the offset lies within both index series and the slices of every window end within their series |
| Windows.WindowBounds | calc.go:105-109 | every slice window `s` takes of the returns, thresholds and shifted index series is in bounds |
| Windows.ContinuousBetas | calc.go:92-118 | `len/n - L` betas; beta `s` is the beta of `rs[s*n:(s+L)*n]` and `ks[s*n:(s+1)*n]` with the index slices shifted by `sameIndex` |
| Windows.BetaAt | calc.go:104-110 | one task: window `s`'s slices and the beta loop on them |
| Windows.SpanTask | calc.go:93-109 | the beta loop on slices of the index series shifted by `sameIndex` gives the beta of the unshifted series' slices taken `sameIndex` further on |
| Windows.PositionIsFirst | calc.go:62-67 | the date search finds a first match, and reaches the end exactly when the date is absent |
| Windows.SameIndex | calc.go:60-67 | when the asset's first date occurs among the index dates, the offset is its first occurrence; otherwise it is 0 |
| Windows.FirstMatch | calc.go:61-67 | the scan stops at the first index date equal to the asset's first date, else leaves 0; no earlier date matches |
| Windows.FirstMatchAt | calc.go:62-66 | a match with none before it is the alignment offset |
| Windows.Resample | calc.go:68-76 | `len/n - L` rows; row `i` holds the first date and the last close of day `L + i` |
| Windows.ResampleRow | calc.go:74-75 | row `i*n` after dropping `L*n` rows is the first row of day `L + i`, and row `(i+1)*n - 1` its last |
| Windows.DaysOfBars | calc.go:60-69 | the days of the date and close columns are the days of the bars |
| Windows.BetasForCode | calc.go:51-78 | insufficient data iff at most `L*n` bars; otherwise the dates, closes and betas all have `len/n - L` rows, row `s` pairs day `L+s`'s first date and last close with the beta of window `s` |
| Windows.WindowReadsOwnThresholds | calc.go:107-109 | window `s` reads, at slot `tau`, the threshold of window start `s` and slot `tau` |
| Windows.KsOfAt | calc.go:184-188 | every written position of the threshold table holds its threshold |
| Windows.SelfBetasAtMostOne | calc.go:109 | against itself, with thresholds in `(0, 2]`, every defined window beta lies in `[0, 1]` |

## Left out

- **Files, data frames and the program driver.** Reading files, the data
  frame library, `main` and the CSV output (`calc.go:21-49`, `80-89`,
  `142-150`) are not modelled. Bars arrive as a sequence of `Bar` values,
  and the driver returns an `Outcome` value instead of writing a file.
- **Concurrency.** Goroutines and wait groups are modelled as sequential
  loops, which write the same positions.
- **Hang when `n` does not divide `len(rs)`.** The code then waits for
  `len(rs) - L*n` task completions but starts only `(days - L) * n` tasks
  (`calc.go:172`, `183`), so `wg.Wait` never returns. The model completes
  instead, leaving the last `len(rs) % n` entries at their initial 0.
  `Thresholds.Coverage` states the mismatch.
- **Floating point.** Rounding, overflow to infinity, and the sign of an
  infinity are not modelled. All arithmetic is exact over reals.
- **Library functions.** `math.Log`, `math.Sqrt` and `math.Pi` are
  uninterpreted beyond `Pi > 0` and `Sqrt(x) >= 0` for `x >= 0`.
  `math.Pow(x, 2)` is `x * x`.
- **`limitK`'s formula.** `limitK = 2.5 * n^-0.49` (`calc.go:19`) becomes a
  positive parameter, because fractional powers are not available over
  reals.
- **Date truncation.** The `[:10]` truncation of dates (`calc.go:74`) is not
  modelled. Dates are opaque strings, and the resampled date is the whole
  string.
- **Logging and timing.** The printed messages and timings are not modelled.
- Thresholds.GetKs: requires at least `L * n` returns. With fewer,
  `make` at `calc.go:157` panics on a negative length. `calc.go:53` guards
  the asset's call, but not `main`'s call on the index (`calc.go:25`); the
  model does not cover that panic.
- **Index series too short.** When the index series are too short for the
  windows, Go either panics or, for slices within capacity, reads past the
  length. The driver returns `IndexOutOfRange` for all of these cases.
- Beta.BetaOf: a zero divisor gives `Undefined`. The model does not
  distinguish the `+Inf`, `-Inf` and NaN that float64 produces there.
- TimeOfDay.Tod: a zero divisor gives `Undefined`, standing for the NaN
  of 0/0. `TimeOfDay.UndefinedIff` shows that the dividend is then 0 as
  well.
- Thresholds.Combine: `math.Sqrt` of a negative product would be NaN in
  Go. The model leaves it uninterpreted. `Thresholds.Combine` shows that
  the product is non-negative whenever BV, RV and the factor are, and
  `Thresholds.ThresholdNonneg` relies on that.

## Findings

| source | as written | input that shows it | evidently intended | confidence | as-written member | corrected member |
|---|---|---|---|---|---|---|
| calc.go:243 | the dividend of slot `tau` takes a kept return only when `i == tau`, so only the first day of the window ever contributes | `n = 2`, `L = 2`, a window of four equal non-zero returns, all kept: each factor is `2 * r^2 / (4 * r^2) = 0.5`, so the profile sums to 1 instead of 2 | `i % n == tau`, every day's slot `tau`, so that the factors of a window sum to `n` | not executed | TimeOfDay.AsWrittenProfileBelowN | TimeOfDay.CorrectedProfileSumsToN |
| calc.go:176 | the TOD of window start `s` scans `rs[s:s+L*n]`, which starts `s` returns in, not `s` days in | `n = 2`, `s = 1`: the first return scanned is `rs[1]`, slot 1 of day 0, but it is truncated with day 1's limit `BVs[s:][0]` | `rs[s*n:(s+L)*n]`, so that window position `i` is day `s + i/n`, the day whose statistics set its limit | not executed | Thresholds.AsWrittenWindowMisaligned | Thresholds.CorrectedWindowAligned |
