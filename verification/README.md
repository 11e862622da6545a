# Mac Trading Academy: indicator and backtest model

`tradingview_app.py` is a Streamlit dashboard. It downloads a bar series
for one ticker, shows four headline figures (last price, change in percent,
volume and RSI), and draws three chart panes:

- candles with 20- and 50-bar moving averages;
- volume bars coloured green or red;
- the 14-bar RSI.

A sidebar button runs a quick moving-average-crossover backtest. The script
has no functions of its own. This project lifts each inline computation into
a pure Dafny function over the sequence of closing prices and proves what
those computations promise.

Modelling choices:

- Prices are exact `real`s.
- An entry that the dashboard's floating-point series would hold as NaN is
  `None` (`Options.Option`).
- Wherever the source divides by a close, the closes are required to be
  strictly positive (`Prices.PositivePrices`).

Modules, one per concern of the script:

| module | file | what it holds |
|---|---|---|
| `Options`, `Numeric` | numeric.dfy | `Option`; `Sum` and `Mean` with their range lemmas |
| `Prices` | prices.dfy | `Bar`, the close column, the one-step difference, the relative change `Change` |
| `Indicators` | indicators.dfy | rolling mean (`Sma` and the running-sum `RollingMean`), gains and losses, RSI, volume colours, the chart series |
| `Metrics` | metrics.dfy | the four headline figures of the last bar |
| `Backtest` | backtest.dfy | the crossover signal, period returns, the compounded curve, the total return |

Three behaviours of the code are easy to misread:

- **The backtest signal is not lagged.** Line 92 multiplies `signal[1:]` by
  `pct_change()[1:]` position by position. The return of bar `k + 1` is
  therefore that same bar's signal times that bar's move
  (`Backtest.StrategyReturns`). It is not the previous bar's signal.
- **RSI is defined from bar 13.** `where(cond, 0)` turns the undefined first
  difference into 0, so the 14-bar rolling means of gains and losses are both
  full at index 13. `Indicators.Rsi` can be defined from there on; it stays
  undefined over a window where the close did not move.
- **There are no error types.** An empty download stops the page, which the
  `|bars| > 0` preconditions express. A series shorter than the slow window
  only raises a warning (`Backtest.NotEnoughData`). Non-positive prices are
  excluded by precondition rather than reported.

## Model

| member | source | states |
|---|---|---|
| `Prices.Closes` | tradingview_app.py:37 | the close column has one entry per bar, holding that bar's close |
| `Prices.Diff` | tradingview_app.py:40 | the difference series is aligned with the closes, undefined at the first bar, and each later difference added to the previous close gives back that bar's close |
| `Prices.Change` | tradingview_app.py:38 | the relative change from a positive close is above -1 when the new close is positive; it is positive exactly on a rise and zero exactly when unchanged |
| `Prices.ChangeRestores` | tradingview_app.py:38 | applying the relative change to the earlier close gives back the later close |
| `Indicators.Sma` | tradingview_app.py:57-58 | the rolling mean is aligned with its input, and from index `w - 1` on it is defined and `w` times it is the sum of the trailing `w` values |
| `Indicators.RollingMean` | tradingview_app.py:57-58 | a single running-sum pass computes the same series as the windowed mean `Sma`; entry `i` is defined exactly when `i >= w - 1`, and is then the mean of the trailing `w` closes |
| `Indicators.SmaDefinedOnceWindowFull` | tradingview_app.py:57-58 | the rolling mean is undefined before its window fills, and afterwards equals the mean of the trailing `w` values |
| `Indicators.SmaWithinWindowRange` | tradingview_app.py:89-90 | a defined moving average lies between the lowest and highest value of its window |
| `Indicators.Gain` | tradingview_app.py:41 | the gain series is aligned with the closes and never negative |
| `Indicators.Loss` | tradingview_app.py:42 | the loss series is aligned with the closes and never negative |
| `Indicators.GainLossSplitMove` | tradingview_app.py:40-42 | gain and loss are 0 at the first bar; after it at most one is non-zero, gain minus loss rebuilds the move, and each is positive exactly on a rise or a fall respectively |
| `Indicators.RsiOf` | tradingview_app.py:43 | with a positive mean loss the RSI is `100 g / (g + l)` and lies in `[0, 100)`; with zero mean loss and positive mean gain it is 100; it is undefined exactly when both means are 0 |
| `Indicators.RsiClosedForm` | tradingview_app.py:43 | `100 - 100 / (1 + g / l)` equals `100 g / (g + l)` for a positive `l`, and lies in `[0, 100)` |
| `Indicators.Rsi` | tradingview_app.py:67 | the RSI series is aligned with the closes and undefined before bar 13 |
| `Indicators.RsiAt` | tradingview_app.py:40-43 | from bar 13 on, the RSI combines the non-negative means of the 14-bar gain and loss windows ending at that bar |
| `Indicators.RsiUndefinedIffFlat` | tradingview_app.py:43 | from bar 13 on, the RSI is undefined exactly when the close did not move over the window's differences (13 at bar 13, 14 after it) |
| `Indicators.RsiFullIffOnlyRises` | tradingview_app.py:43 | from bar 13 on, the RSI is exactly 100 exactly when the close rose somewhere in the window and never fell there |
| `Indicators.RsiShareOfUpMoves` | tradingview_app.py:40-43 | when the close fell in the window, the RSI is defined and equals `100 * total gains / (total gains + total losses)` of the window, in `[0, 100)` |
| `Indicators.RsiInRange` | tradingview_app.py:67 | every defined RSI value lies in `[0, 100]` |
| `Indicators.FlatSeriesHasNoRsi` | tradingview_app.py:67 | a close series that never moves has no defined RSI anywhere |
| `Indicators.VolumeColors` | tradingview_app.py:62-64 | one colour per bar (one for an empty series); the first bar is green; a later bar is green exactly when its close is strictly above the previous one, so an unchanged close is red |
| `Indicators.ColorsFollowGain` | tradingview_app.py:62-64 | after the first bar a volume bar is green exactly when the RSI gain there is positive, and red exactly when there is a loss or no move |
| `Indicators.Chart` | tradingview_app.py:57-67 | the MA20, MA50, colour and RSI series are all aligned with the bars; MA20 is defined exactly from bar 19 and MA50 exactly from bar 49, each then the mean of its trailing window; the first volume bar is green and a later one green exactly when its close rose; the RSI is undefined before bar 13; from there it is undefined exactly over a window where the close did not move, exactly 100 where the close rose and never fell, and otherwise `100 * gains / (gains + losses)` of the window's sums; every defined value lies in `[0, 100]` |
| `Metrics.PercentRoundTrip` | tradingview_app.py:38 | the change in percent, read back as a factor, turns the previous close into the last one |
| `Metrics.LastBarMetrics` | tradingview_app.py:37-43 | the figures are the last bar's close and volume and the RSI series' last entry; the change is undefined for a single bar; otherwise it turns the previous close into the last one, is above -100 %, and is positive exactly when the last volume bar is green |
| `Backtest.Signal` | tradingview_app.py:91 | the signal is aligned with the closes and every entry is 0 or 1 |
| `Backtest.SignalMeansFastAboveSlow` | tradingview_app.py:89-91 | the signal is 1 exactly where both windows are full and the fast trailing mean is strictly above the slow one |
| `Backtest.EqualWindowsNeverSignal` | tradingview_app.py:89-91 | with equal windows the signal is never on |
| `Backtest.StrategyReturns` | tradingview_app.py:92 | one period return per bar after the first, each above -1 |
| `Backtest.CumProd` | tradingview_app.py:93 | the cumulative product is aligned with the returns, starts at `1 + r[0]`, and each later entry is the previous one times `1 + r[k]` |
| `Backtest.GrowthStep` | tradingview_app.py:93 | one more period multiplies the compounded growth by `1 + r` |
| `Backtest.CurveRecurrence` | tradingview_app.py:93 | a curve of growths so far starts at `1 + r[0]` and multiplies in `1 + r[k]` at each later point |
| `Backtest.GrowthPositive` | tradingview_app.py:93 | compounding returns that each lose less than everything stays positive |
| `Backtest.CurvePositive` | tradingview_app.py:93 | every point of such a curve is positive |
| `Backtest.GrowthOfZeros` | tradingview_app.py:93 | compounding zero returns leaves the amount at 1 |
| `Backtest.GrowthTelescopes` | tradingview_app.py:92-93 | returns that carry each close to the next compound, over the first `m` periods, to the close `m` bars later over the first close |
| `Backtest.CompoundedMovesFrom` | tradingview_app.py:92-93 | returns that are 0 before bar `j` and the relative move of the closes from bar `j` on compound the close of bar `j - 1` into the last close |
| `Backtest.CompoundedMovesFromRatio` | tradingview_app.py:92-93 | such returns compound to the last close over the close of bar `j - 1` |
| `Backtest.Run` | tradingview_app.py:86-94 | warns exactly when there are fewer bars than the slow window; otherwise each period return is the bar's relative move when the same bar's signal is 1 and 0 when it is 0, each curve point is the growth so far and positive, and the total is `(last curve point - 1) * 100`, above -100 % |
| `Backtest.FlatBeforeSlowWindow` | tradingview_app.py:89-93 | before the slow window is full the strategy earns nothing and the curve stays at 1 |
| `Backtest.EqualWindowsBreakEven` | tradingview_app.py:89-94 | with equal windows every period return is 0, the curve stays at 1 and the total return is exactly 0 % |
| `Backtest.InvestedFromEarnsLaterMoves` | tradingview_app.py:91-92 | with the signal off before bar `j` and on from bar `j`, the period returns into the bars before `j` are 0 and every later one is that bar's relative move |
| `Backtest.InvestedFromIsBuyAndHold` | tradingview_app.py:91-94 | such a run's total return is the buy-and-hold return from the close of bar `j - 1` to the last close, `(last / c[j - 1] - 1) * 100` |
| `Backtest.RisingFastAboveSlow` | tradingview_app.py:89-90 | on a strictly rising series, once both windows are full, the shorter trailing window has the strictly higher mean |
| `Backtest.RisingSeriesSignal` | tradingview_app.py:89-91 | on a strictly rising series with `fast < slow`, the signal is off before bar `slow - 1` and on at every bar from there |
| `Backtest.RisingSeriesReturn` | tradingview_app.py:86-94 | on a strictly rising series with `fast < slow`, the run returns `(last / c[slow - 2] - 1) * 100`, which is positive: it earns the move into the bar where the signal turns on, and every move after it |

## Left out

- The Streamlit page setup, style sheet, sidebar widgets and metric formatting are not modelled (lines 12-26, 46-50). They are user interface only.
- The price download and its caching are not modelled (lines 29-35): they are network I/O in a foreign library. The model takes the bar series as a parameter. The "stop on an empty download" branch appears as the `|bars| > 0` / `|c| > 0` preconditions.
- Plotly chart construction is not modelled (lines 53-71), apart from the series the panes draw (`Indicators.Chart`): it is rendering.
- The paper-trading buttons are not modelled (lines 74-79). They only display a message and keep no state.
- The RSI pane's 30/70 guide lines are not modelled (lines 68-69). They are constant drawing decorations.
- IEEE floating point is replaced by exact reals. NaN becomes `None`; an infinite `gain/loss` ratio is folded into `Indicators.RsiOf`'s 100 case; rounding is not modelled.
- Prices.Change: requires a positive previous close. The source would produce an infinite or NaN change for a zero close. Market closes are positive, and the model does not carry IEEE infinities.
- Metrics.LastBarMetrics: requires positive closes, for the reason given for `Prices.Change`.
- Backtest.StrategyReturns: requires positive closes, for the reason given for `Prices.Change`.
- Backtest.Run: requires positive closes, for the reason given for `Prices.Change`. It also requires `fast >= 1` and `slow >= 2`. The sliders only offer `fast >= 5` and `slow >= 10`. With a single bar the source would index an empty cumulative product and fail, so the model does not cover that case.
- Backtest.Signal: requires both windows to be at least 1, as a rolling mean needs; the sliders never offer less.
- Indicators.VolumeColors: an empty close series yields the single prepended green entry. The source never reaches this case, because an empty download stops the page first.
- A lagged signal, error kinds for missing data or zero prices, and an RSI starting at bar 14 are not modelled: the script has none of them.
