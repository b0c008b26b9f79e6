# RSI strategy backtester: a Dafny model

This project models the core of an RSI (relative strength index) backtester for market price
series. It covers five parts:

- **Indicator.** The RSI indicator: Wilder-style exponentially weighted averages of the
  rises and falls of the closing price.
- **Signal walk.** It scans the RSI series bar by bar with one of three rules: mean
  reversion (long), overbought reversal (short) or trend-following around the 50 midline.
  It emits non-overlapping trades and force-closes a position that is still open on the
  last bar.
- **Ledger and summary.** A trade ledger of percentage returns with their running sum, and
  a summary: trade count, total, mean, win rate, and maximum drawdown of the compounded
  equity curve.
- **Market-regime tag.** Its rules: `unknown` below three bars, otherwise `trending`,
  `volatile` or `ranging` by slope and volatility thresholds.
- **Batch front end.** It reads a market and a timeframe from a data file's name. It
  normalises a parsed CSV table: it renames the first timestamp-like column, adds the
  missing OHLCV columns as undefined and sorts by timestamp. For each RSI period it
  prepares the series, dropping incomplete rows and rows whose RSI is undefined, and skips
  any series shorter than 20 bars.

The model's conventions:

- A pandas NaN is `None` in an `Option`. A comparison with NaN is false, and `min()`
  skips NaN.
- Prices and returns are exact `real`s.
- Each loop of the source is an imperative method, proved equal to a specification
  function. The properties are proved as lemmas about those functions:
  - the bar loop of the backtest (`RunStrategy`) equals the recursive walk `WalkTo`;
  - the per-trade loop of the ledger (`ComputeReturnsFromTrades`) equals the per-trade
    `RowFor` together with the recursive `RunningSums`;
  - the timeframe loop (`InferTimeframe`) equals `Infer`;
  - the rename loop (`RenameTimestampColumn`) equals `Renamed`;
  - the fill loop (`AddMissingColumns`) equals the input followed by
    `FillColumns(MissingNames(...))`.
- Files:
  - `indicator.dfy`: the RSI;
  - `signals.dfy`: configuration and the walk;
  - `ledger.dfy`: returns and summary;
  - `strategies.dfy`: the backtest composed;
  - `regime.dfy`: the regime tag;
  - `filenames.dfy`: file-name inference;
  - `loader.dfy`: CSV normalisation;
  - `batch.dfy`: per-period preparation and the parameter sweep;
  - `bars.dfy` and `wrappers.dfy`: shared types.

## Model

| member | source | states |
|---|---|---|
| Indicator.Up | streamlit_app/utils/strategies.py:13 | the clipped rise is non-negative and positive exactly when the price rose |
| Indicator.Down | streamlit_app/utils/strategies.py:14 | the clipped fall is non-negative and positive exactly when the price fell |
| Indicator.UpDownPartition | streamlit_app/utils/strategies.py:12-14 | rise minus fall is the difference, and at most one of them is nonzero |
| Indicator.Ewm | streamlit_app/utils/strategies.py:15-16 | `ewm(alpha=alpha, adjust=False).mean()` over a defined series, one average per input value; its meaning is stated by EwmRecurrence, EwmPrefix and EwmWithin |
| Indicator.EwmRecurrence | streamlit_app/utils/strategies.py:15-16 | the average starts at the first value and then follows `m[t] = (1-alpha)·m[t-1] + alpha·x[t]` (`adjust=False`) |
| Indicator.EwmPrefix | streamlit_app/utils/strategies.py:15-16 | the average of a prefix is the prefix of the average: it never looks ahead |
| Indicator.EwmWithin | streamlit_app/utils/strategies.py:15-16 | with alpha in [0,1], an average of values in [lo,hi] stays in [lo,hi] |
| Indicator.Alpha | streamlit_app/utils/strategies.py:15 | the smoothing factor 1/period lies in (0,1] |
| Indicator.RsiValue | streamlit_app/utils/strategies.py:17-18 | `100 - 100/(1+up/(down+1e-9))` equals `100·up/(up+down+1e-9)` and lies in [0,100) |
| Indicator.AveragesNonNegative | streamlit_app/utils/strategies.py:15-16 | both smoothed averages are non-negative at every bar |
| Indicator.Rsi | streamlit_app/utils/strategies.py:11-18 | one value per close; the first is undefined; every later one is defined and in [0,100) |
| Indicator.EwmStepAt | streamlit_app/utils/strategies.py:15-16 | each average after the first is one recurrence step from the previous one |
| Indicator.RsiAt | streamlit_app/utils/strategies.py:11-18 | the value at bar t comes from the two averages of the first t differences |
| Indicator.NonRisingRsiZero | streamlit_app/utils/strategies.py:11-18 | a series that never rises has RSI 0 at every defined bar |
| Indicator.FlatRunRsiZero | streamlit_app/utils/strategies.py:11-18 | a constant series has RSI 0 at every defined bar (the epsilon guard keeps 0/0 out) |
| Indicator.NonFallingDownAverageZero | streamlit_app/utils/strategies.py:14-16 | a series that never falls has a zero down-average at every bar |
| Indicator.NonFallingRsi | streamlit_app/utils/strategies.py:11-18 | a series that never falls has a zero down-average at every bar, so each RSI value is 100·up/(up+1e-9) |
| Signals.ParseMode | streamlit_app/utils/strategies.py:52-68 | each of the three mode strings maps to its own mode and only that string does; any other string is kept, unchanged, as unrecognised |
| Signals.Resolve | streamlit_app/utils/strategies.py:41-44 | each missing key takes its default (30, 70, 50, mean_reversion) and each given key is used as is |
| Signals.EmptyConfigDefaults | streamlit_app/utils/strategies.py:41-44 | an empty configuration resolves to lower 30, upper 70, exit 50, mean reversion |
| Signals.StepBar | streamlit_app/utils/strategies.py:48-85 | one iteration at bar i: an undefined RSI skips the bar, the end-of-series check included; otherwise the mode's branch runs and, on the last bar, a still-open position is closed |
| Signals.WalkTo | streamlit_app/utils/strategies.py:45-85 | the state after bars 1 to k-1, starting flat with no trades; RunStrategy is proved equal to it |
| Signals.Trades | streamlit_app/utils/strategies.py:45-85 | the trades of the whole walk; TradesSound states their order, ranges and justification |
| Signals.ModeStepTable | streamlit_app/utils/strategies.py:52-81 | on a defined bar the per-mode branch is the transition table (flat+entry opens, flat otherwise stays, open+exit closes, open otherwise stays) |
| Signals.TradesSound | streamlit_app/utils/strategies.py:48-85 | the emitted trades are in order, do not overlap, lie in 1..n-1, and each is justified: entry signal for its side, exit signal or forced close, no exit signal in between, no entry signal skipped while flat |
| Signals.RunStrategy | streamlit_app/utils/strategies.py:45-85 | the imperative bar loop returns exactly the trades of the specification walk, which are well formed and justified |
| Signals.EndsFlat | streamlit_app/utils/strategies.py:83-85 | when the last bar's RSI is defined, no position is left open at the end |
| Signals.NoSignalAfterLastTrade | streamlit_app/utils/strategies.py:83-85 | when the last bar's RSI is defined, no entry signal occurs after the last trade's exit |
| Signals.LastBarUndefinedSkipsClose | streamlit_app/utils/strategies.py:49-85 | an undefined RSI on the last bar skips the forced close as well |
| Signals.OpenPositionLostExample | streamlit_app/utils/strategies.py:48-85 | a long opened at bar 1 with an undefined last bar stays open, and no trade is recorded |
| Signals.UnrecognisedModeStaysFlat | streamlit_app/utils/strategies.py:52-81 | under an unrecognised mode the walk never leaves its initial flat state |
| Signals.UnrecognisedModeNoTrades | streamlit_app/utils/strategies.py:44-81 | an unrecognised mode string yields no trades and no error |
| Signals.SidesFollowMode | streamlit_app/utils/strategies.py:52-66 | mean reversion trades only long and overbought reversal only short |
| Signals.TrendFollowStrictMidline | streamlit_app/utils/strategies.py:71-81 | in trend-following mode no trade enters, or exits before the last bar, at an RSI of exactly 50 |
| Ledger.PnlSign | streamlit_app/utils/strategies.py:25 | a long gains exactly when the exit price is higher, a short exactly when it is lower; the short return is the negated long return |
| Ledger.LongFactorIsPriceRatio | streamlit_app/utils/strategies.py:25 | a long's growth factor `1 + pnl/100` is exit/entry, positive for positive prices |
| Ledger.ComputeReturnsFromTrades | streamlit_app/utils/strategies.py:20-38 | one row per trade, in order, with the bar timestamps and closes, the side and 100·return, plus the running sum of the returns |
| Ledger.RunningSumsAt | streamlit_app/utils/strategies.py:37 | the k-th cumulative return is the sum of the first k+1 returns |
| Ledger.LastCumulativeIsTotal | streamlit_app/utils/strategies.py:37 | the last cumulative return is the total return |
| Ledger.WinRatePct | streamlit_app/utils/strategies.py:92 | the win rate lies in [0,100] |
| Ledger.WinRateExtremes | streamlit_app/utils/strategies.py:92 | all winning trades give 100, no winning trade gives 0 |
| Ledger.Equity | streamlit_app/utils/strategies.py:96 | `(1 + pnl/100).cumprod()`; EquityAt states it point by point |
| Ledger.EquityAt | streamlit_app/utils/strategies.py:96 | the k-th equity value is the product of the first k+1 growth factors |
| Ledger.RunningMax | streamlit_app/utils/strategies.py:97 | `equity.cummax()`; RunningMaxAt states that it bounds and attains the earlier values |
| Ledger.RunningMaxAt | streamlit_app/utils/strategies.py:97 | the running peak at k bounds all earlier equity values and is one of them |
| Ledger.MinDefined | streamlit_app/utils/strategies.py:99 | the NaN-skipping minimum is undefined exactly when every value is, and otherwise is the least defined value, attained |
| Ledger.FirstDrawdown | streamlit_app/utils/strategies.py:96-98 | the first drawdown is 0, or all drawdowns are NaN when the first trade loses 100% |
| Ledger.MaxDrawdownPct | streamlit_app/utils/strategies.py:93-99 | `drawdowns.min() * 100`, or 0 for an empty ledger; its defined-ness and bounds are stated by MaxDrawdownUndefinedIff, MaxDrawdownNonPositive and MaxDrawdownBounds |
| Ledger.MaxDrawdownUndefinedIff | streamlit_app/utils/strategies.py:93-99 | the maximum drawdown is NaN exactly when the first trade's factor is 0 |
| Ledger.MaxDrawdownNonPositive | streamlit_app/utils/strategies.py:95-99 | a defined maximum drawdown is never positive |
| Ledger.MaxDrawdownBounds | streamlit_app/utils/strategies.py:95-99 | with every growth factor positive the maximum drawdown is defined and lies in (-100, 0] |
| Ledger.NoLossNoDrawdown | streamlit_app/utils/strategies.py:95-99 | a ledger without a losing trade has maximum drawdown exactly 0 |
| Ledger.DrawdownExample | streamlit_app/utils/strategies.py:95-99 | returns 10, -5, -5, 2 give a maximum drawdown of -9.75% |
| Ledger.Summarize | streamlit_app/utils/strategies.py:87-99 | trade count; an empty ledger gives all zeros; total is the sum; the mean is the total divided by the count; win rate in [0,100]; drawdown never positive |
| Ledger.MeanTimesCountIsTotal | streamlit_app/utils/strategies.py:90-91 | for a non-empty ledger the mean times the number of trades gives back the total |
| Strategies.BacktestSimpleStrategy | streamlit_app/utils/strategies.py:40-100 | rows are the priced trades of the walk with their running sum, and the summary is computed from them; the last cumulative value is the total; an unrecognised mode gives an empty ledger and a zero summary; mean reversion on positive prices gives a drawdown in (-100, 0] |
| Regime.Window | streamlit_app/utils/strategies.py:107 | the fit window is the series length capped at 50 |
| Regime.ShortWindowIffShortSeries | streamlit_app/utils/strategies.py:107-110 | the window has fewer than 3 points exactly when the series has fewer than 3 bars |
| Regime.TagMarketRegime | streamlit_app/utils/strategies.py:102-121 | unknown (trend 0) iff fewer than 3 bars; trending iff \|slope\| > 0.0005; volatile iff not trending and volatility > 0.005; ranging otherwise (a NaN volatility is never high); the volatility is reported unchanged |
| Regime.TrendDominatesVolatility | streamlit_app/utils/strategies.py:113-118 | a series tagged trending stays trending whatever its volatility, because the slope test comes first |
| Regime.SlopeSignIrrelevant | streamlit_app/utils/strategies.py:115-121 | the tag depends on the slope only through `abs(slope)`: falling and rising trends are alike |
| Regime.TrendingMonotone | streamlit_app/utils/strategies.py:115-116 | a steeper slope keeps a trending series trending |
| Regime.VolatileMonotone | streamlit_app/utils/strategies.py:117-118 | a higher volatility keeps a volatile series volatile |
| Regime.UndefinedVolIsRanging | streamlit_app/utils/strategies.py:115-121 | with a flat slope, an undefined (NaN) volatility fails `vol > vol_threshold`, so the series is ranging |
| FileNames.LastIndexOf | backtester/batch_backtest.py:72 | the position of the last occurrence of the character, with none after it, or nothing when the character does not occur |
| FileNames.BaseName | backtester/batch_backtest.py:72 | the base is the name up to its last '.', or the whole name when there is none |
| FileNames.RemoveCharMembers | backtester/batch_backtest.py:79 | deleting a character keeps exactly the other characters |
| FileNames.MarketName | backtester/batch_backtest.py:79 | the three chained `replace` calls that remove `_`, `-` and `/`; MarketNameMembers states what is kept |
| FileNames.MarketNameMembers | backtester/batch_backtest.py:79 | a market name keeps exactly the characters that are not `_`, `-` or `/` |
| FileNames.MarketNameAppend | backtester/batch_backtest.py:79 | removing separators distributes over concatenation |
| FileNames.MarketNameIdempotent | backtester/batch_backtest.py:79 | stripping separators twice is the same as once |
| FileNames.Infer | backtester/batch_backtest.py:75-83 | no result exactly when no allowed timeframe is a suffix of the base |
| FileNames.DropLast | backtester/batch_backtest.py:79 | `base[:-len(tf)]`: a prefix of the name, shorter by `len(tf)`, and empty (not the whole name) when `len(tf)` is 0 |
| FileNames.EmptyTimeframeEmptyMarket | backtester/batch_backtest.py:76-80 | an empty first timeframe matches every name, and `base[:-0]` leaves an empty market |
| FileNames.InferAt | backtester/batch_backtest.py:76-80 | the first suffix in list order wins, and the market is the rest without separators |
| FileNames.InferTimeframe | backtester/batch_backtest.py:75-83 | the loop with its early break returns the first matching timeframe and its market, or nothing; a found timeframe is a suffix of the base name, and the market is made of base-name characters with the separators removed |
| FileNames.DownloaderBaseName | backtester/download_data.py:30 | the base name of a downloaded file is the symbol without '/', `_` and the timeframe |
| FileNames.FifteenMinuteMisread | backtester/batch_backtest.py:41-80 | every downloaded 15-minute file is read as 5m with a stray "1" on the market |
| FileNames.BtcFifteenMinuteExample | backtester/batch_backtest.py:41-80 | `BTCUSDT_15m.csv` is read as timeframe 5m, market `BTCUSDT1` |
| FileNames.DownloaderNamesRoundTrip | backtester/download_data.py:17-30 | with "15m" tried before "1m" and "5m", every downloaded file's timeframe and market are read back exactly |
| FileNames.SuffixSafeSameTimeframes | backtester/batch_backtest.py:41 | the corrected order lists the same timeframes |
| Loader.Lower | backtester/batch_backtest.py:53 | lower-casing maps each character, and only A-Z change |
| Loader.FirstTimestampLikeFrom | backtester/batch_backtest.py:52-56 | the first column from the start index whose lower-cased name is timestamp, datetime, date or time |
| Loader.RenameTimestampColumn | backtester/batch_backtest.py:52-56 | the loop renames exactly the first timestamp-like column to `timestamp`, stops there, and leaves every other column unchanged |
| Loader.AddMissingColumns | backtester/batch_backtest.py:57-60 | the result is the input followed by one all-undefined column for each required name the input lacks, in the order of the required list, and nothing else; afterwards every required column is present |
| Loader.MissingNamesMembers | backtester/batch_backtest.py:58-60 | a name is added exactly when it is required and the table has no column of that name |
| Loader.Renamed | backtester/batch_backtest.py:52-56 | the first timestamp-like column renamed to `timestamp`, every other column unchanged, the same number of columns |
| Loader.Collision | backtester/batch_backtest.py:52-61 | the renamed column was not already `timestamp`, and a column named `timestamp` exists, so the label becomes duplicated |
| Loader.RenamedDuplicateIffCollision | backtester/batch_backtest.py:52-61 | renaming duplicates the `timestamp` label exactly when a differently named timestamp-like column comes before an existing `timestamp` column |
| Loader.SelectedRows | backtester/batch_backtest.py:57-61 | `df[required]` in file order, one row per line (`nrows` rows); TableSelectsSource shows that the filled table yields exactly these rows |
| Loader.TableSelectsSource | backtester/batch_backtest.py:57-61 | selecting the required columns of the filled table gives each required column's source cells, or undefined cells |
| Loader.SortByTimestamp | backtester/batch_backtest.py:61 | the sorted rows are a permutation of the input, ascending by timestamp with undefined timestamps last |
| Loader.SortKeepsSorted | backtester/batch_backtest.py:61 | a table already in timestamp order is unchanged; for pandas this holds only when the defined timestamps are distinct, because its default sort leaves the order of ties unspecified |
| Loader.UndefinedTimestampsKeepOrder | backtester/batch_backtest.py:61 | rows whose timestamps are all undefined keep their order |
| Loader.LoadMarketCsv | backtester/batch_backtest.py:49-61 | fails exactly on a `timestamp` label collision; otherwise returns the selected rows sorted by timestamp: `nrows` rows, a permutation |
| Loader.MissingVolumeUndefined | backtester/batch_backtest.py:58-61 | a file without a `volume` column loads with the volume undefined in every row |
| Loader.NoTimestampColumnKeepsOrder | backtester/batch_backtest.py:52-61 | a file without a timestamp-like column keeps its row order with every timestamp undefined |
| Loader.FirstTimestampLikeWins | backtester/batch_backtest.py:52-56 | with `Date` before `time`, `Date` becomes the timestamp and the load succeeds |
| Loader.DateThenTimestampCollides | backtester/batch_backtest.py:52-61 | `Date` followed by `timestamp` makes the load fail |
| Batch.DropIncomplete | backtester/batch_backtest.py:96 | dropping incomplete rows never adds rows |
| Batch.DropIncompleteAppend | backtester/batch_backtest.py:96 | `dropna()` keeps exactly the complete rows in their order: appending a row appends its bar when it is complete and nothing otherwise |
| Batch.DropIncompleteCount | backtester/batch_backtest.py:96 | the number of bars kept is the number of complete rows |
| Batch.DropIncompleteKeepsComplete | backtester/batch_backtest.py:96 | a table without undefined cells loses no row |
| Batch.DropIncompleteSound | backtester/batch_backtest.py:96 | every kept bar is a complete input row |
| Batch.KeepDefined | backtester/batch_backtest.py:98 | the second `dropna` leaves only bars with a defined RSI |
| Batch.RsiDropsFirstBar | backtester/batch_backtest.py:96-98 | the second `dropna` removes exactly the first bar |
| Batch.PrepareForPeriod | backtester/batch_backtest.py:95-100 | skipped exactly when fewer than 21 complete rows remain; otherwise the complete bars without the first one, their RSI values all defined, at least 20 bars |
| Batch.SamePreparedBars | backtester/batch_backtest.py:95-100 | any two positive periods skip the same series and keep the same bars |
| Batch.PeriodIndependentBars | backtester/batch_backtest.py:95-100 | the periods 7, 14 and 21 are positive, and a series is skipped for all of them or for none, with the same bars each time |
| Batch.SweepConfigs | backtester/batch_backtest.py:107-178 | nine configurations in order: mean reversion with lower bounds 30, 25, 20, 15; overbought reversal with upper bounds 70, 75, 80, 85 (all exiting at 50); then trend following with no thresholds |
| Batch.SweepConfigsResolve | backtester/batch_backtest.py:107-178 | every swept configuration names a recognised mode and exits at 50; the unswept bound keeps its default |

## Left out

- Floating point: prices, returns and the RSI are exact reals. Rounding, overflow, `inf`
  and NaN arising from arithmetic (as opposed to a missing value) are not modelled.
- Ledger.ComputeReturnsFromTrades: requires each entry close to be nonzero, because a zero
  entry price divides by zero (giving `inf`/NaN in the source).
- Strategies.BacktestSimpleStrategy: requires positive closes and at least one RSI value
  per bar. The source indexes the RSI series by position and would fail on a shorter one.
- Regime.TagMarketRegime: the volatility (rolling or whole-series standard deviation of
  `pct_change`) and the slope of the least-squares fit of the log closes are inputs. They
  use `sqrt`, `log` and `polyfit`, which are not computed. The model states the rule
  applied to them.
- Loader.Lower: lower-cases ASCII letters only. Python's `str.lower` also folds
  non-ASCII letters.
- Loader.LoadMarketCsv: starts from an already parsed table, with columns of optional
  numbers and distinct header names. Reading the file is not modelled. Neither is parsing
  the timestamps with `pd.to_datetime` (a parse failure is an error the batch loop
  catches); timestamps are numbers.
- Loader.SortByTimestamp: ties between equal defined timestamps are kept in input order.
  pandas' default sort does not promise any tie order.
- Batch: the per-file loop is not composed into one method. That loop reads files with
  `glob`, shows a progress bar, stamps rows with `utcnow`, writes summary and trade CSVs,
  and calls `tag_market_regime` on each prepared series. Its parts are modelled
  separately: name inference, loading, preparation, the sweep and the backtest.
- The Streamlit application (`streamlit_app/rsi_app_v2.py`) and the data downloader's
  network calls are not part of this model. The downloader contributes only its file-name
  format.
- An unrecognised strategy mode is accepted silently and trades nothing, because the
  source does that and raises no error. The model follows the code.

## Findings

| source | as written | input that shows it | evidently intended | confidence | as-written member | corrected member |
|---|---|---|---|---|---|---|
| backtester/batch_backtest.py:41-80 | timeframes are tried in the order 1m, 5m, 15m, 1h, 4h, and the first suffix match wins; "5m" is a suffix of "15m" | `BTCUSDT_15m.csv` (any downloaded 15-minute file) is read as timeframe `5m`, market `BTCUSDT1` | timeframe `15m`, market `BTCUSDT` | not executed | FileNames.FifteenMinuteMisread, FileNames.BtcFifteenMinuteExample | FileNames.DownloaderNamesRoundTrip (the order 15m, 1m, 5m, 1h, 4h) |
