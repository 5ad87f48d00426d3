# Verified kernels of the trading system

A Dafny model of the parts of the trading system whose results depend on long runs of small steps, with proofs
about those runs. `dafny verify dfyconfig.toml` checks the whole project.

| Files | What they model |
|---|---|
| `Decimals` | decimal arithmetic with 16 places: exact sums and products, quotients rounded to nearest, ties away from zero |
| `Times`, `Text` | 64-bit durations, and trimming and letter case |
| `Candles`, `Indicators` | candles, and one recursive definition for each indicator |
| `TrendSeries`, `VolatilitySeries` | the loops that compute the trend rows and the volatility rows |
| `DecimalReference`, `RowsByValue` | the indicators once more on decimals, as the program writes them, and what each field of a row holds |
| `AverageLaws`, `ExactAverages`, `WilderLaws`, `SymmetryLaws`, `RowLaws` | rounding errors, ranges, symmetries, no lookahead, warm-up |
| `RoundingWitnesses`, `RoundingLimits`, `UnitLaws` | for which prices and windows a law of exact arithmetic survives rounding, with the series that break it |
| `Trades`, `CostLaws` | simulated round trips and what fees, spread and slippage do to them |
| `Metrics`, `WalkForward`, `WalkForwardLaws`, `FoldsByValue` | journal summaries, the split at one time, walk-forward folds |
| `Collector`, `CollectorLaws`, `CollectorHistory` | the market-data collector and its reconnect protocol |
| `FirstOrderReview`, `ReviewCertificate` | the review of a first live order over five journals |
| `Download` | the page-by-page candle download of an experiment |
| `DataQuality`, `QualityByValue` | gap counting and the data-quality row |

How the model represents the program:

- **Decimals.** A candle may have prices of any number of decimals, so the prices of a series are whole numbers of
  parts of 10^-16 / g, for a grain g that every definition and law takes as a parameter. Grain 1 is prices in whole
  units of 10^-16, that is of at most 16 decimals. Each quotient is rounded to whole units exactly where the program
  divides. Backtest amounts are real numbers with exact products, and each quotient is rounded to 16 places.
  `QuoOnGrid`, `QuoByInteger` and `RoundProductOnGrid` show that the two views are the same arithmetic,
  `DecimalReference` that every indicator on parts is the one computed on decimals, and `AdxHasNoGrain` that the ADX
  of the same decimals is the same at every grain that can count them.
- **Times** are nanoseconds, zero being the unset time. Differences of times saturate at 64 bits, and the products of
  durations that the walk-forward code computes wrap around.
- **Loops** are methods with loops. Each is proved equal to a recursive definition, and the laws are then proved
  about that definition, for every input. What each operation accepts, why it refuses, and what each field of its
  result holds is stated once more without those definitions, by value.
- **The outside world** of the collector is an environment that decides each outcome by the number of the event. A
  run leaves a trace of events, and `Next` is the protocol that the trace has to follow. `Run` is proved to leave a
  whole run of that protocol, and the laws hold for every trace of it. `CollectorHistory` tells the same protocol from
  the trace alone, without a state, and proves that both allow the same traces. The exchange of a download is modelled the
  same way.

## What the proofs found

Some statements that hold in exact arithmetic fail in the program, which rounds and whose durations wrap around. Each
has a concrete witness that the program accepts as input, and the exact condition under which the program meets it.
The conditions below are over all accepted series of a grain g in a window w; in all of them g = 1 means prices of at
most 16 decimals.

- **Each movement and the range.** A smoothed directional movement stays between zero and the smoothed true range if
  and only if g = 1 (`EachMovementWithinRangeIff`). With finer prices a range of half a unit per candle loses a whole
  unit and the movement just below it nothing (`HalfUnitsLeaveTheRange`): at the default window of 14, a range of
  seven units can make DI+ 115 on its own (`DefaultWindowExceedsHundred`).
- **Both movements and the range.** Together they stay within the range if and only if g = 1 and w <= 2
  (`MovementsWithinRangeIff`, `LongWindowsLeaveTheRange`). They leave it by at most 1.5 units of 10^-16 per candle of
  the window, at any grain and on a series of any length (`SmoothedSumBound`), and not where no smoothing step rounds
  (`ExactSumWithinRange`).
- **The guard against a zero range** hides no movement if and only if g = 1 or w >= 3 (`ZeroRangeHidesNothingIff`,
  `HiddenInWindowOfOne`, `HiddenInWindowOfTwo`).
- **DI+ and DI-** add up to 100 at most if and only if g = 1 and w = 1 (`IndicatorsWithinHundredIff`). Longer windows
  exceed it by a tie in both quotients (`TiesExceedHundred`) and can reach 200 (`IndicatorsCanReachTwoHundred`), a
  window of one with finer prices by a debt left behind (`OvertakingExceedsHundred`). `WilderInvariant` bounds the
  excess at every step.
- **ADX.** Every ready value lies in [0, 100] if and only if g = 1 or w >= 2 (`AdxWithinHundredIff`), so at every
  grain for the default window. In a window of one with finer prices an ADX can be -100 (`AdxCanBeNegative`).
- **Price unit.** Multiplying all prices by a whole number leaves the ADX as it is if and only if g = 1 and w = 1
  (`AdxHasNoUnitIff`); over all factors, fractions included, no window does (`EveryWindowSeesTheUnit`). For a window
  of 2, doubling moves an ADX from 50 to 100 (`AdxCanSeeTheUnit`); `LongWindowsSeeTheUnit` and `DebtsSeeTheUnit` name a
  series and a factor for the others. On a given series it is enough that no smoothing step rounds (`AdxHasNoUnit`).
  Reflecting the price axis never changes the ADX, rounding included (`AdxIgnoresDirection`).
- **Two smoothing forms.** The running total of the ADX loop is exactly w times the average of the ATR loop if and
  only if g = 1 and w = 1 (`FormsAgreeIff`, `OnePartSeparatesTheForms`). They always agree up to w(w+1)/2 units
  (`RangeTotalIsWindowTimesAtr`).
- **Price hull.** An exponential average lies between the lowest and the highest close so far if and only if g = 1
  (`EmaInHullIff`, `OnePartLeavesTheHull`). At every grain it lies between any whole units that bound the closes
  (`EmaHull`). The error of its rounded steps is bounded at every grain (`EmaRoundingNeverAccumulates`).
- **Warm-up.** A trend row is complete from the warm-up index on and never before if and only if no price can be below
  half a unit, that is g <= 2 (`CompleteFromWarmUpIff`). A still price below it makes every mean round to zero, so that
  no row is ever complete (`StillNeverCompletes`). `TrendCompleteIff` has the exact condition for one row.
- **Impact and profit.** More impact can raise the net profit when fees are above 100% (`DearFeesRewardImpact`). It
  never does, at whatever prices, if and only if the fee of the selling leg is at most 100%
  (`ImpactNeverHelpsAtAnyPriceIff`).
- **Critical impact.** The cost model accepts an impact of up to 10000 basis points, but the journal accepts the trip
  if and only if it is below 9999.9999999999995 (`JournalAcceptsIff`). From there on the impact ratio rounds to one and
  the selling leg executes at a price of zero (`ZeroPriceIsAccepted`).
- **Negative equity.** The reported drawdown is the largest fall of the curve if and only if every debt, seen from the
  lowest positive equity before it, is covered by some drawdown from the peak (`ReportsWorstFallIff`). Without debts
  it always is (`MaxDrawdownIsWorstFall`); `NegativeEquityHidesAFall` has a journal where it is not.
- **Fold index.** The computed index is the true one if and only if the product of elapsed time and folds stays
  below 2^63, and an earlier one from there on (`FoldIndexExactIff`). In three years of a hundred folds an entry near
  the end gets fold 0 instead of 98, after one in fold 97 (`WrapBreaksTheOrder`), so that the folds of an accepted
  journal do not join to it (`WrapSwapsEntries`). The folds of every sorted journal join to
  the journal if and only if no product of the window wraps around (`SortedFoldsJoinIff`).
- **Fold bounds.** An entry can lie exactly on the reported end of its fold (`EntryOnReportedEnd`). All folds exclude
  their ends for all entries if and only if the folds divide the duration and no product of the window wraps around
  (`AllFoldsHonestIff`); `HonestFoldIff` has the condition for one fold.

## Model

| member | source | states |
|---|---|---|
| Decimals.QuoByInteger | internal/features/trend.go:219 | dividing a price of any grain by a count rounds to the same decimal whether it is computed on parts or on decimals |
| Decimals.QuoOnGrid | internal/features/trend.go:319-332 | the same for the quotient of two prices |
| Decimals.RoundProductOnGrid | internal/features/trend.go:235-237 | the same for the rounded weighted sum of an exponential step |
| TrendSeries.ValidateFeatureCandles | internal/features/price.go:117-153 | accepts exactly the valid, closed candles of one series of which each opens where the one before closes |
| TrendSeries.SimpleMovingAverage | internal/features/trend.go:211-220 | the rounded mean of the last w closes, absent before there are w |
| TrendSeries.MovingAverageSlope | internal/features/trend.go:244-251 | the relative change of that mean over one candle, absent without two means or when the earlier one is zero |
| TrendSeries.ExponentialMovingAverageSeries | internal/features/trend.go:222-242 | both arrays, at every index, are the recursive average and its readiness, with zero where it is not ready |
| TrendSeries.AverageDecimals | internal/features/trend.go:334-343 | the rounded mean, and zero for no values |
| TrendSeries.AverageDirectionalIndexSeries | internal/features/trend.go:253-300 | the three-phase loop fills both arrays with the recursive ADX from index 2w - 1 on and leaves zeros before, short series included |
| TrendSeries.StructureCounts | internal/features/trend.go:352-376 | the four counters are the numbers of positions in the window that make each step |
| TrendSeries.ComputeTrendRow | internal/features/trend.go:79-142 | one row holds each value that is ready and names each one that is not, in order |
| TrendSeries.ComputeTrendFeatures | internal/features/trend.go:62-145 | bad configuration, empty input, refused candles, or one row for every candle |
| RowsByValue.IntervalTable | internal/features/price.go:117-153 | the length of every interval name in minutes |
| RowsByValue.AcceptedSeriesIff | internal/features/price.go:117-153 | what an accepted series is, candle by candle and price by price |
| RowsByValue.TrendAcceptsIff | internal/features/trend.go:62-72 | the configurations and candles for which rows are computed, the default of each window, and which error is reported |
| RowsByValue.TrendRowByValue | internal/features/trend.go:79-142 | every field of every row is the decimal value of its own window at its candle, or zero, and the missing ones are named in order |
| DecimalReference.SmaIsDecimal | internal/features/trend.go:211-220 | the simple average is the decimal mean of the last w closes, rounded once |
| DecimalReference.SlopeIsDecimal | internal/features/trend.go:244-251 | the slope is the newer mean less the older, relative to the older, in decimals |
| DecimalReference.EmaIsDecimal | internal/features/trend.go:222-242 | the exponential average is the decimal recursion with the weight 2 / (w + 1), every rounding included |
| DecimalReference.MoveIsDecimal | internal/features/trend.go:302-317 | range and movements of a candle in decimals |
| DecimalReference.TiesMoveNeither | internal/features/trend.go:302-317 | a candle that moves as far up as down makes neither movement, and no candle makes both |
| DecimalReference.SmoothedIsDecimal | internal/features/trend.go:267-281 | each smoothed line is the decimal running total |
| DecimalReference.IndexIsDecimal | internal/features/trend.go:319-332 | the directional index is computed from the decimal indicators |
| DecimalReference.AdxIsDecimal | internal/features/trend.go:253-300 | the ADX is the decimal one from its seed on, every rounding included |
| DecimalReference.AtrIsDecimal | internal/features/volatility.go:187-211 | the average true range is the decimal one, every rounding included |
| AverageLaws.EmaErrorStep | internal/features/trend.go:235-237 | one exponential step shrinks the old error by 1 - alpha and adds half a unit at most |
| AverageLaws.EmaErrorScaled | internal/features/trend.go:222-242 | alpha times the error never exceeds half a unit, at any index, for any window |
| AverageLaws.EmaRoundingNeverAccumulates | internal/features/trend.go:222-242 | for closes of any number of decimals the rounded average differs from the unrounded recursion with the same alpha and seed by at most (0.5 * 10^-16) / alpha, at every index of a series of any length |
| ExactAverages.AlphaNearest | internal/features/trend.go:225 | the weight is 2 / (w + 1) within half a unit |
| ExactAverages.EmaNearExact | internal/features/trend.go:222-242 | for closes within any whole units, the average differs from the exact one, with the weight 2 / (w + 1), a true mean as seed and no rounding, by at most a drift that does not grow with the length |
| ExactAverages.EmaIsExactUpToDrift | internal/features/trend.go:222-242 | in decimals the drift is (w + 1) / 4 units of 10^-16 for each unit of price that the closes are apart, and once more |
| AverageLaws.SmaHull | internal/features/trend.go:211-220 | a rounded mean lies between any whole units of 10^-16 that bound the closes in its window |
| AverageLaws.EmaHull | internal/features/trend.go:222-242 | every ready exponential average lies between any whole units of 10^-16 that bound the closes so far, with the rounding of alpha, seed and steps |
| RoundingLimits.EmaInHullIff | internal/features/trend.go:222-242 | every exponential average of every accepted series lies between any bounds of the closes so far if and only if prices have at most 16 decimals |
| RoundingLimits.OnePartLeavesTheHull | internal/features/trend.go:211-220 | at every finer grain a series of one price whose mean is not that price |
| WilderLaws.MovementBounds | internal/features/trend.go:302-317 | both directional movements are non-negative and together at most the true range |
| WilderLaws.LinesNonNegative | internal/features/trend.go:267-281 | no smoothed line is ever negative, at any grain in windows from 2 on, and in whole units in any window |
| WilderLaws.SmoothedBounds | internal/features/trend.go:267-281 | in whole units each smoothed movement lies between zero and the smoothed range at every step |
| RoundingLimits.EachMovementWithinRangeIff | internal/features/trend.go:267-281 | each smoothed movement lies between zero and the smoothed range at every step of every accepted series if and only if prices have at most 16 decimals |
| RoundingLimits.HalfUnitsLeaveTheRange | internal/features/trend.go:277-281 | at every finer grain and in every window, an accepted series with a movement above the range |
| WilderLaws.AddedUpBounds | internal/features/trend.go:267-271 | during the first window the movements stay within the range, each and together, at any grain |
| WilderLaws.SmoothedSumBound | internal/features/trend.go:277-281 | the sum exceeds the smoothed range by at most 1.5 units for each candle of the window, at any grain and however long the series is |
| WilderLaws.ExactSumWithinRange | internal/features/trend.go:277-281 | on a series where no smoothing step rounds, the sum never exceeds the smoothed range |
| RoundingLimits.MovementsWithinRangeIff | internal/features/trend.go:267-281 | the sum stays within the smoothed range at every step of every accepted series if and only if prices have at most 16 decimals and the window is at most 2 |
| RoundingLimits.LongWindowsLeaveTheRange | internal/features/trend.go:277-281 | for every window from 3 on, an accepted series whose smoothed movements exceed the smoothed range |
| WilderLaws.IndicatorSum | internal/features/trend.go:319-332 | from any three totals: DI+ plus DI- is at most 100 but for the last place of each quotient and for what the movements exceed the range by |
| RoundingLimits.ZeroRangeHidesNothingIff | internal/features/trend.go:319-322 | where the smoothed range is zero there is no smoothed movement, at every step of every accepted series, if and only if prices have at most 16 decimals or the window is at least 3 |
| RoundingLimits.HiddenInWindowOfOne | internal/features/trend.go:319-322 | at every finer grain an accepted series with a movement behind a zero range in a window of 1 |
| RoundingLimits.HiddenInWindowOfTwo | internal/features/trend.go:319-322 | the same in a window of 2 |
| RoundingLimits.IndicatorsWithinHundredIff | internal/features/trend.go:267-332 | DI+ plus DI- is at most 100 at every step of every accepted series, from the first whole window on, if and only if prices have at most 16 decimals and the window is 1 |
| RoundingLimits.OvertakingExceedsHundred | internal/features/trend.go:319-332 | at every finer grain an accepted series with DI+ plus DI- above 100 in a window of 1 |
| RoundingLimits.DefaultWindowExceedsHundred | internal/features/trend.go:319-332 | an accepted series with prices of 17 decimals and DI+ at 115 in a window of 14 |
| RoundingLimits.TiesExceedHundred | internal/features/trend.go:319-332 | for every window from 2 on, an accepted series whose DI+ and DI- add up to more than 100 |
| RoundingLimits.IndicatorsCanReachTwoHundred | internal/features/trend.go:319-332 | an accepted series with DI+ and DI- both 100 |
| WilderLaws.DirectionalIndexRange | internal/features/trend.go:319-332 | DX lies in [0, 100] whenever no total is negative, even if a movement exceeds the range |
| WilderLaws.AdxInRange | internal/features/trend.go:283-296 | every ready ADX value lies in [0, 100], at any grain in windows from 2 on, and in whole units in any window |
| RoundingLimits.AdxWithinHundredIff | internal/features/trend.go:253-300 | every ready ADX value of every accepted series lies in [0, 100] if and only if prices have at most 16 decimals or the window is at least 2 |
| RoundingLimits.AdxCanBeNegative | internal/features/trend.go:253-300 | at every finer grain an accepted series with an ADX of -100 in a window of 1 |
| WilderLaws.WilderInvariant | internal/features/trend.go:267-332 | the invariant of the smoothing loop at any grain: the excess of the movements over the range and of DI+ plus DI- over 100 is bounded, in windows from 2 on no line is negative and DX lies in [0, 100], and during the first window the movements stay within the range |
| WilderLaws.WholeUnitInvariant | internal/features/trend.go:267-332 | in whole units also each movement is within the range, a zero range hides no movement, and DI+ and DI- lie in [0, 100] |
| WilderLaws.RangeTotalIsWindowTimesAtr | internal/features/volatility.go:194-208 | the range total of the ADX loop is w times the ATR up to w(w+1)/2 units, at every index of a series of any length |
| WilderLaws.SmoothingsAgreeIff | internal/features/volatility.go:194-208 | on a given series both are equal up to an index if and only if the totals up to it divide by w into whole units |
| RoundingLimits.FormsAgreeIff | internal/features/volatility.go:194-208 | both are equal at every index of every accepted series if and only if prices have at most 16 decimals and the window is 1 |
| RoundingLimits.OnePartSeparatesTheForms | internal/features/volatility.go:194-208 | for every other grain or window an accepted series on which they differ |
| SymmetryLaws.ReflectedSmoothed | internal/features/trend.go:267-281 | turning the price axis upside down exchanges the two smoothed movements and keeps the range, at any grain |
| SymmetryLaws.AdxIgnoresDirection | internal/features/trend.go:253-332 | the reflected series has the same ADX values, ready at the same indices |
| SymmetryLaws.StructureMirrors | internal/features/trend.go:352-376 | the reflected series has the structure counts exchanged in pairs |
| SymmetryLaws.DirectionalIndexHasNoUnit | internal/features/trend.go:319-332 | DX depends on the ratios of its arguments only, rounding included |
| SymmetryLaws.ScalingIsExactSmoothing | internal/features/trend.go:277-281 | a smoothed line scales with the prices, for every factor and up to every step, if and only if no smoothing step rounds |
| SymmetryLaws.AdxHasNoUnit | internal/features/trend.go:253-300 | on a series where no smoothing step rounds, scaling all prices leaves the ADX as it is |
| UnitLaws.AdxHasNoUnitIff | internal/features/trend.go:253-332 | multiplying all prices by a whole number leaves the ADX as it is, for every accepted series, factor and index, if and only if prices have at most 16 decimals and the window is 1 |
| UnitLaws.EveryWindowSeesTheUnit | internal/features/trend.go:253-332 | for every grain and window an accepted series and a fraction of whole numbers that changes the ADX |
| UnitLaws.DebtsSeeTheUnit | internal/features/trend.go:253-332 | at every finer grain in a window of 1, an accepted series and a factor that change the ADX |
| SymmetryLaws.AdxHasNoGrain | internal/features/trend.go:253-332 | the ADX of the same decimals, counted in smaller parts, is the same |
| UnitLaws.LongWindowsSeeTheUnit | internal/features/trend.go:253-332 | for every window from 3 on, and from 2 on at finer grains, an accepted series and a factor that change the ADX |
| UnitLaws.AdxCanSeeTheUnit | internal/features/trend.go:253-332 | an accepted series whose ADX is 50, and 100 with every price doubled |
| VolatilitySeries.AverageTrueRangeSeries | internal/features/volatility.go:187-211 | both arrays hold the recursive average true range from index w on and zeros before |
| VolatilitySeries.ReadyFrom | internal/features/volatility.go:213-227 | returns are ready exactly from the first whole window on |
| VolatilitySeries.ReadyWindows | internal/features/volatility.go:229-257 | a windowed series is ready exactly where its whole window was ready |
| VolatilitySeries.ComputeVolatilityFeatures | internal/features/volatility.go:58-124 | bad configuration, empty input, refused candles, or one row for every candle |
| RowsByValue.VolatilityAcceptsIff | internal/features/volatility.go:58-68 | the configurations and candles for which rows are computed, and the default of each window |
| RowsByValue.VolatilityRowByValue | internal/features/volatility.go:77-120 | the ATR and its share of the close in decimals, and the missing values in order |
| RowLaws.TrendRowAgrees | internal/features/trend.go:79-142 | a row is the same for any two series that agree up to its index |
| RowLaws.TrendNeverLooksAhead | internal/features/trend.go:62-145 | the rows of the first k candles are the first k rows of all candles, values and missing reasons alike, for every k |
| RowLaws.VolatilityNeverLooksAhead | internal/features/volatility.go:58-124 | the same for the volatility rows |
| RowLaws.SlopeReadyIff | internal/features/trend.go:244-251 | with positive closes a slope exists if and only if there are enough candles and the earlier mean is at least half a unit of 10^-16 |
| RowLaws.TrendCompleteIff | internal/features/trend.go:79-141 | a row is complete if and only if its index is at least max(MA20 - 1, MA50, MA200, EMA20 - 1, EMA50 - 1, 2 ADX - 1, Structure - 1) and the means both slopes divide by are at least half a unit |
| RowLaws.TrendCompleteAfterWarmUp | internal/features/trend.go:79-141 | with closes of at least half a unit, if and only if its index is at least that maximum |
| RoundingLimits.CompleteFromWarmUpIff | internal/features/trend.go:79-141 | this holds of every row of every accepted series if and only if no price of the grain is below half a unit |
| RoundingLimits.StillNeverCompletes | internal/features/trend.go:79-141 | at every grain with smaller prices, accepted series of any length without a complete row |
| RowLaws.WindowsReady | internal/features/volatility.go:229-320 | nested windows are ready from the sum of their warm-ups on |
| RowLaws.VolatilityCompleteAfterWarmUp | internal/features/volatility.go:77-120 | a row is complete if and only if its index is at least max(ATR, Rolling + ZScore - 1, Bollinger + Compression - 2) |
| CostLaws.TripIsTwoFills | internal/backtest/trade.go:90-151 | a round trip is accepted if and only if both its fills are and the exit is later, and its legs are those fills |
| CostLaws.TripAcceptedIff | internal/backtest/trade.go:120-180 | the inputs that are evaluated, field by field |
| CostLaws.TripByValue | internal/backtest/trade.go:120-151 | every field of the trip and of both its legs: prices after impact, notionals, fees at the maker's or the taker's rate, profits and return |
| CostLaws.CostsNeverPay | internal/backtest/trade.go:120-151 | gross profit is the frictionless one less q * r * (entry mid + exit mid), and net <= gross <= frictionless, in both directions |
| CostLaws.HedgeNeverPays | internal/backtest/trade.go:120-151 | long and short on the same terms never net a profit together |
| CostLaws.NetNonIncreasingInFees | internal/backtest/trade.go:281-283 | higher fee rates never raise the net profit |
| CostLaws.NetIsLinearInImpact | internal/backtest/trade.go:276-311 | net profit is linear in the impact ratio, with quantity times exposure as its slope |
| CostLaws.ImpactNeverHelpsIff | internal/backtest/trade.go:276-311 | more impact never raises the net profit if and only if the exposure, after fees, is not negative |
| CostLaws.NetNonIncreasingInImpact | internal/backtest/trade.go:276-311 | with a fee of at most 100% on the selling leg a wider spread or more slippage never raises the net profit |
| CostLaws.WholeFeesAreEnough | internal/backtest/trade.go:283 | fee rates of at most 100% give such a fee |
| CostLaws.ImpactNeverHelpsAtAnyPriceIff | internal/backtest/trade.go:276-311 | more impact never raises the net profit, at whatever mid prices, if and only if the fee of the selling leg is at most 100% |
| CostLaws.DearFeesRewardImpact | internal/backtest/trade.go:276-311 | a trip with fees of 300% that nets more with a wider spread |
| CostLaws.JournalAcceptsIff | internal/backtest/metrics.go:198-228 | an evaluated trip passes the journal's validation if and only if its impact is below 9999.9999999999995 basis points |
| CostLaws.ZeroPriceIsAccepted | internal/backtest/trade.go:153-180 | a spread that the cost validation accepts, with which the exit executes at zero and the journal refuses the trip |
| Metrics.SummarizeRoundTrips | internal/backtest/metrics.go:56-107 | the first invalid trade is named, or every field of the summary is the recursive definition of it |
| MetricsLaws.SummaryByTrades | internal/backtest/metrics.go:61-106 | wins, losses and breakeven are the numbers of trades with a positive, negative and zero net profit, the amounts are the sums over them, and the rates are right within half a unit for each trade |
| MetricsLaws.JournalAcceptedIff | internal/backtest/metrics.go:56-70 | the journals that are accepted, field by field, and which error is reported |
| MetricsLaws.PeakIsHighest | internal/backtest/metrics.go:85-88 | the running peak is an earlier equity and the highest one |
| MetricsLaws.MaxDrawdownIsWorst | internal/backtest/metrics.go:89-94 | the online drawdown is the maximum of the drawdowns from the running peak |
| MetricsLaws.ReportsWorstFallIff | internal/backtest/metrics.go:66-95 | for every journal the reported drawdown is the largest fall between any two points in order if and only if every debt, from the lowest positive equity before it, is covered by a drawdown from the peak |
| MetricsLaws.MaxDrawdownIsWorstFall | internal/backtest/metrics.go:66-95 | while equity is never negative it is that largest fall, and lies in [0, 1] |
| MetricsLaws.NegativeEquityHidesAFall | internal/backtest/metrics.go:66-95 | a journal with negative equity whose largest fall is 1.5 and whose reported drawdown is 1.25 |
| MetricsLaws.SummaryIsConsistent | internal/backtest/metrics.go:61-106 | counts add up, net profit is gross profit less gross loss and final less initial equity, rates are in range, the profit factor is on the same side of one as the net profit is of zero |
| WalkForward.SummarizeRoundTripsBySplit | internal/backtest/metrics.go:109-143 | errors in order, or the summaries of the trades before and from the split time |
| WalkForward.AssignFolds | internal/backtest/metrics.go:164-175 | the array of folds holds, in journal order, exactly the trades with each index, or the first refused trade is named |
| WalkForward.SummarizeRoundTripsByWalkForward | internal/backtest/metrics.go:145-196 | errors in order, or all folds with bounds and summaries; no fold is ever refused after its trades were accepted |
| FoldsByValue.SplitByTime | internal/backtest/metrics.go:109-143 | a split is accepted like a summary with a time, and its parts are summaries of the trades entered before it and from it on |
| FoldsByValue.WalkForwardAcceptedIff | internal/backtest/metrics.go:145-175 | the configurations and journals that are accepted |
| FoldsByValue.WalkForwardRefusedBy | internal/backtest/metrics.go:145-175 | which error is reported, in order, and that a trade named is the first |
| FoldsByValue.FoldByValue | internal/backtest/metrics.go:176-190 | fold i has the number i + 1, runs from its cut of the window to the next, and sums up the trades whose offset falls into it |
| WalkForwardLaws.FoldIndexExactIff | internal/backtest/metrics.go:230-241 | the index is the true fold if and only if elapsed times folds is below 2^63, and an earlier fold otherwise |
| WalkForwardLaws.FoldIndexMono | internal/backtest/metrics.go:230-241 | a later entry whose product stays below 2^63 never has an earlier fold |
| WalkForwardLaws.WrapBreaksTheOrder | internal/backtest/metrics.go:230-241 | three years from 2023 on in a hundred folds: an entry in fold 97 and a later one in fold 0, where 98 is the true one |
| WalkForwardLaws.WrapSwapsEntries | internal/backtest/metrics.go:164-190 | the walk-forward summary accepts a journal of these two entries, and its folds do not join to it |
| WalkForwardLaws.BoundsTileTheWindowIff | internal/backtest/metrics.go:243-251 | the bounds start and end with the window and meet without a gap, and no fold ends before it starts if and only if the duration times one fold less than there are is below 2^63 |
| WalkForwardLaws.EntryWithinBounds | internal/backtest/metrics.go:230-251 | while the products of an entry and of its fold's bounds are below 2^63, it is in its true fold and start <= entry <= end |
| WalkForwardLaws.EntryWithinBoundsIff | internal/backtest/metrics.go:230-251 | start <= entry <= end for the fold an entry is put into if and only if these products are below 2^63 |
| WalkForwardLaws.HonestFoldIff | internal/backtest/metrics.go:230-251 | where no product wraps around, every entry of fold i lies before its reported end if and only if (i + 1) times the duration leaves no rest on division by the folds, or a rest longer than the window, which takes more folds than nanoseconds |
| WalkForwardLaws.AllFoldsHonestIff | internal/backtest/metrics.go:230-251 | this holds of all folds if and only if the folds divide the duration and no product of an entry wraps around |
| WalkForwardLaws.GrainedEntryBeforeEnd | internal/backtest/metrics.go:230-251 | it holds of an entry whose products are below 2^63 when times are multiples of a grain of at least as many nanoseconds as there are folds |
| WalkForwardLaws.EntryOnReportedEnd | internal/backtest/metrics.go:230-251 | ten nanoseconds in three folds: the entry at offset three has index 0 and lies on the end of fold 0 |
| WalkForwardLaws.PartsConserveTotals | internal/backtest/metrics.go:164-190 | for any assignment of trades to n parts all eight totals add up to those of the whole journal |
| WalkForwardLaws.PartsConserveTrades | internal/backtest/metrics.go:164-175 | the parts together hold exactly the trades of the journal, with multiplicity |
| WalkForwardLaws.SortedPartsJoin | internal/backtest/metrics.go:164-175 | parts with ascending keys concatenate back to the journal |
| WalkForwardLaws.SplitConserves | internal/backtest/metrics.go:117-142 | the two summaries of a split add up to the whole one, both parts hold the journal's trades, and for a sorted journal they concatenate to it |
| WalkForwardLaws.WalkForwardConserves | internal/backtest/metrics.go:164-190 | the same totals for the folds of a walk-forward summary |
| WalkForwardLaws.SortedFoldsJoin | internal/backtest/metrics.go:164-190 | the folds of a journal sorted by entry time, all of whose products are below 2^63, concatenate back to it |
| WalkForwardLaws.SortedFoldsJoinIff | internal/backtest/metrics.go:164-190 | in a window of up to 146 years this holds of every accepted sorted journal if and only if no product of an entry wraps around |
| Collector.CollectorRunner.ConnectAndSubscribe | cmd/collector/runner.go:153-161 | a connect then a subscribe, and which of them failed |
| Collector.CollectorRunner.Reconnect | cmd/collector/runner.go:141-151 | close, wait, connect, subscribe, and where it failed |
| Collector.CollectorRunner.PingIfDue | cmd/collector/runner.go:87-101 | the clock is read where pings are wanted, a due ping is sent, and its failure spends one reconnect or ends the run |
| Collector.CollectorRunner.ReadAndHandle | cmd/collector/runner.go:103-135 | a read handles a payload or spends one reconnect; messages read plus reconnects used strictly increase |
| Collector.CollectorRunner.Run | cmd/collector/runner.go:42-139 | terminates with a whole run of the protocol in the environment, after at most messages + attempts rounds of one read each, but for a last one; the error is absent if and only if the returned count is the number of messages |
| Collector.UsedWithinBudget | cmd/collector/runner.go:83-138 | on every trace the budget and the number of messages are never exceeded, and a run is done exactly with the last message |
| CollectorLaws.SessionSafety | cmd/collector/runner.go:76-161 | every read and ping is in a live session, every payload was just read, every later connect follows a close and a completed wait, a close follows a failure or resync |
| CollectorLaws.SharedBudget | cmd/collector/runner.go:83-138 | reads at most messages + attempts, connects at most 1 + attempts, closes at most attempts, pings at most reads + 1, on every trace |
| CollectorLaws.HowRunsEnd | cmd/collector/runner.go:83-138 | a run is done if and only if all messages were handled; a budget error only with the whole budget spent; any other only for a failed wait, connect or subscribe |
| CollectorHistory.LawfulIff | cmd/collector/runner.go:76-161 | which event may follow a trace, told from its last events and its counts alone, and that the protocol allows exactly these traces |
| CollectorHistory.WholeRunIff | cmd/collector/runner.go:42-161 | a whole run is a trace of lawful events that no lawful event can follow |
| CollectorHistory.RunEndsBy | cmd/collector/runner.go:83-138 | a run is done if and only if all messages were handled, and otherwise its error names the event it ended with |
| CollectorHistory.DuePingsAreSent | cmd/collector/runner.go:85-101 | where pings are wanted every read follows a clock reading, and after the reading of a round comes a ping if the latest stamp is a ping interval old, and the read if not |
| CollectorLaws.PingsKeepTheirDistance | cmd/collector/runner.go:85-101 | with a monotone clock any two pings are at least the ping interval apart |
| CollectorLaws.RunIsDetermined | cmd/collector/runner.go:42-161 | an environment admits one whole run only |
| FirstOrderReview.LatestStatusSnapshot | internal/live/first_order_review.go:492-503 | the scan ends on the snapshot the recursive definition names |
| FirstOrderReview.LatestPositionSnapshot | internal/live/first_order_review.go:505-516 | the same for positions |
| FirstOrderReview.BuildReport | internal/live/first_order_review.go:75-111 | every field of the report from the evidence |
| ReviewLaws.LatestIsFirstGreatest | internal/live/first_order_review.go:492-516 | the latest snapshot has the greatest time and is the first that has it |
| ReviewLaws.ReadyMeansAllPass | internal/live/first_order_review.go:96-109 | a report is ready if and only if all seven checks pass |
| ReviewCertificate.ReadyIffCertificate | internal/live/first_order_review.go:75-490 | ready if and only if the evidence holds the certificate: sound rows, one of each, one set of names, every planned number submitted, one quantity on to the position, one order of times, and nothing gone wrong, all written out field by field |
| ReviewCertificate.ReportChecks | internal/live/first_order_review.go:75-110 | the name and the verdict of each of the seven checks, by its own condition written out, and the counts |
| ReviewCertificate.ReportTells | internal/live/first_order_review.go:75-111 | the names, the exchange's name of the order, and the latest state and position of a report |
| ReviewCertificate.ValidReportIff | internal/live/first_order_review.go:113-163 | what a valid stored report is, field by field |
| ReviewLaws.ReportPassesIff | internal/live/first_order_review.go:113-163 | a built report passes its own validation if and only if the four ids of the plan are not blank; a ready one always does |
| ReviewLaws.SampleIsCertified | internal/live/first_order_review.go:75-111 | there is evidence that a review certifies |
| Download.ValidateExperimentCandles | internal/research/trend_experiment.go:81-98 | accepts exactly the whole window, hour by hour, valid and closed |
| Download.CheckOrder | cmd/trend-experiment/main.go:128-132 | accepts exactly the pages that open hour by hour from the cursor |
| Download.PlanAcceptedIff | internal/research/trend_experiment.go:34-52 | the plans that are downloaded, window by window |
| Download.DownloadCandles | cmd/trend-experiment/main.go:108-149 | succeeds if and only if the plan is accepted, every page of the window is answered in full and in order before a cancellation, and the candles are sound; then the result is the pages joined, and every error has its cause at its page |
| Download.PagesAreDisjoint | cmd/trend-experiment/main.go:113-134 | any two requests are disjoint in time and lie in the window |
| Download.EveryHourAskedOnce | cmd/trend-experiment/main.go:113-134 | every hour of the window is asked for by exactly one request |
| Download.DownloadedCandlesAreContiguous | internal/research/trend_experiment.go:81-98 | downloaded candles are accepted by every feature calculation |
| DataQuality.ValidateCandles | internal/features/data_quality.go:165-212 | accepts exactly valid candles of one series whose opens ascend by multiples of the interval |
| DataQuality.CountMissingCandles | internal/features/data_quality.go:214-232 | the recursive gap count, zero where there is no interval to count in |
| DataQuality.FeatureCompletenessScore | internal/features/data_quality.go:234-245 | the rounded fraction of complete feature sets |
| DataQuality.CollectSetReasons | internal/features/data_quality.go:116-127 | every reason of every incomplete set, prefixed and in order |
| DataQuality.ComputeDataQualityFeatures | internal/features/data_quality.go:57-132 | errors in order, or the row with all its reasons |
| QualityByValue.QualityAcceptedIff | internal/features/data_quality.go:57-74 | the inputs for which a row is computed, field by field |
| QualityByValue.QualityRefusedBy | internal/features/data_quality.go:57-74 | which error is reported, in order |
| QualityByValue.QualityRowByValue | internal/features/data_quality.go:76-131 | every field of the row: the last close and its age, the gaps, the share of complete feature sets, and everything missing in order |
| DataQualityLaws.SpanIsSteps | internal/features/data_quality.go:214-232 | the gap count telescopes over the first n candles |
| DataQualityLaws.MissingFillsTheSpan | internal/features/data_quality.go:214-232 | missing + length is (last open - first open) / interval + 1 |
| DataQualityLaws.NothingMissingIffContiguous | internal/features/data_quality.go:165-232 | nothing is missing if and only if the closed candles pass the contiguity check of the indicators |
| DataQualityLaws.CompleteRowMeans | internal/features/data_quality.go:76-131 | a row is complete if and only if data is present, fresh and gapless, the feed is live, the book valid and every feature set complete |

## Left out

- The decimal library is not part of this model: its rounding is stated in `Decimals`.
- Floating-point statistics (log returns, standard deviations, Bollinger values, z-scores): only their ready flags are modelled. A standard-deviation multiplier that is not a number is not modelled.
- Candle volume and turnover, and the duplicate check of the candle validator, which the strictly ascending order implies.
- Normalising text (trimming, upper case) of directions, roles, liquidity and candle identities. In the review, trimming and letter case are those of ASCII text. Error messages are error values.
- AdxHasNoUnit: one direction on a given series, since a smoothing step that rounds need not move the ADX value; AdxHasNoUnitIff has the exact condition over all series.
- LinesNonNegative, AdxInRange: windows from 2 on or whole units, the exact condition of AdxWithinHundredIff.
- SmoothedBounds, WholeUnitInvariant: prices in whole units, the exact condition of EachMovementWithinRangeIff.
- SmaHull, EmaHull: bounds in whole units; EmaInHullIff has the exact condition for all bounds.
- TrendCompleteAfterWarmUp: closes of at least half a unit; TrendCompleteIff has the exact condition for a row, and CompleteFromWarmUpIff over all series.
- ExactSumWithinRange: one direction on a given series, since a step that rounds need not cause an excess; MovementsWithinRangeIff has the exact condition over all series.
- NetNonIncreasingInImpact: needs a fee of at most 100% on the selling leg, which the cost model does not demand; ImpactNeverHelpsIff and ImpactNeverHelpsAtAnyPriceIff have the exact conditions.
- GrainedEntryBeforeEnd: one direction, for any grain; AllFoldsHonestIff has the exact condition over all entries.
- FoldIndexMono, SortedFoldsJoin: one direction for given entries, since wrapped indices can be in order by chance; SortedFoldsJoinIff has the exact condition over all sorted journals of a window.
- HonestFoldIff: windows without a wrapped product; AllFoldsHonestIff covers the others.
- BoundsTileTheWindowIff, SortedFoldsJoinIff: up to 2^62 folds, and for the second windows of up to 2^62 nanoseconds; the program keeps a list for every fold.
- EntryWithinBoundsIff, FoldIndexExactIff: windows of less than 292 years, whose duration is no saturated one.
- Adding a duration to a time does not overflow in the model.
- Building a cost model from integers, and printing a round trip.
- BuildReport: the detail texts of the checks, and the order of problems within one check, which only decide the text.
- Run: contexts, the read deadline, log lines and payload contents. The body of its loop is split into three methods.
- DownloadCandles: the plan's monetary fields and criteria, and the delay timer; a cancellation during the delay is seen at the next page.
- The other commands, the remaining features (price, volume, microstructure), the paper and research layers, the other live artifacts, configuration, storage and the repositories.
