/**
 * `backtest_simple_strategy` (streamlit_app/utils/strategies.py): the signal walk over
 * the bars, the trade ledger and the summary, composed.
 */
module Strategies {
  import opened Wrappers
  import opened Bars
  import opened Signals
  import opened Ledger

  /** The trades of a backtest: the walk reads one RSI value per bar. */
  function BacktestTrades(bars: seq<Bar>, rsi: seq<Option<real>>, cfg: StrategyCfg): seq<Trade>
    requires |rsi| >= |bars|
  {
    Trades(rsi[..|bars|], Resolve(cfg))
  }

  /**
   * Runs the configured strategy over `bars` with the given RSI series and returns the
   * summary and the ledger. Every trade prices at two bars of the series; the last
   * cumulative return is the total; an unrecognised mode trades nothing; a mean-reversion
   * run (long only, positive prices) has a drawdown in (-100, 0].
   */
  method BacktestSimpleStrategy(bars: seq<Bar>, rsi: seq<Option<real>>, cfg: StrategyCfg)
    returns (summary: Summary, ledger: TradeLedger)
    requires |rsi| >= |bars|
    requires PositivePrices(bars)
    ensures PricedTrades(BacktestTrades(bars, rsi, cfg), bars)
    ensures |ledger.rows| == |BacktestTrades(bars, rsi, cfg)|
    ensures forall k :: 0 <= k < |ledger.rows| ==>
              ledger.rows[k] == RowFor(BacktestTrades(bars, rsi, cfg)[k], bars)
    ensures ledger.cumulativePnlPct == RunningSums(PnlColumn(ledger.rows))
    ensures summary == Summarize(PnlColumn(ledger.rows))
    ensures |ledger.rows| > 0 ==> ledger.cumulativePnlPct[|ledger.rows| - 1] == summary.totalPnlPct
    ensures Resolve(cfg).mode.Unrecognised? ==>
              ledger.rows == [] && summary == Summary(0, 0.0, 0.0, 0.0, Some(0.0))
    ensures Resolve(cfg).mode == MeanReversion ==>
              summary.maxDrawdownPct.Some? && -100.0 < summary.maxDrawdownPct.value <= 0.0
  {
    var p := Resolve(cfg);
    var series := rsi[..|bars|];
    var trades := RunStrategy(series, p);
    ledger := ComputeReturnsFromTrades(trades, bars);
    var pnls := PnlColumn(ledger.rows);
    summary := Summarize(pnls);
    if |pnls| > 0 {
      LastCumulativeIsTotal(pnls);
    }
    if p.mode.Unrecognised? {
      UnrecognisedModeNoTrades(series, p);
    }
    if p.mode == MeanReversion {
      SidesFollowMode(series, p);
      forall k | 0 <= k < |pnls| ensures Factor(pnls[k]) > 0.0 {
        assert trades[k] in trades;
        var t := trades[k];
        LongFactorIsPriceRatio(bars[t.entryIdx].close, bars[t.exitIdx].close);
        DivPositive(bars[t.exitIdx].close, bars[t.entryIdx].close);
      }
      MaxDrawdownBounds(pnls);
    }
  }
}
