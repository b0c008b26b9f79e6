/**
 * Trade returns and the performance summary
 * (streamlit_app/utils/strategies.py: `compute_returns_from_trades` and the
 * summary block of `backtest_simple_strategy`).
 *
 * The pandas scans `cumsum`, `cumprod` and `cummax` are written out as
 * recursive functions over the prefix of a sequence; `min` skips undefined
 * values as pandas does.
 */
module Ledger {
  import opened Wrappers
  import opened Bars
  import opened Signals

  /** One row of the trade ledger, without the cumulative column. */
  datatype LedgerRow = LedgerRow(entryTime: real, exitTime: real, entryPrice: real, exitPrice: real,
                                 side: Side, pnlPct: real)

  /** The ledger: its rows in emission order and the `cumulative_pnl_pct` column. */
  datatype TradeLedger = TradeLedger(rows: seq<LedgerRow>, cumulativePnlPct: seq<real>)

  /** Percentage return of a trade from its entry and exit closing prices. */
  function PnlPct(side: Side, entry: real, exit: real): real
    requires entry != 0.0
  {
    (if side == Long then (exit - entry) / entry else (entry - exit) / entry) * 100.0
  }

  /** A long gains exactly when the price rose, a short exactly when it fell; the two are opposite. */
  lemma PnlSign(side: Side, entry: real, exit: real)
    requires entry > 0.0
    ensures side == Long ==> (PnlPct(side, entry, exit) > 0.0 <==> exit > entry)
    ensures side == Short ==> (PnlPct(side, entry, exit) > 0.0 <==> exit < entry)
    ensures PnlPct(Long, entry, exit) == -PnlPct(Short, entry, exit)
  {
    var q := (exit - entry) / entry;
    assert q * entry == exit - entry;
    assert q > 0.0 <==> exit > entry;
    assert (entry - exit) / entry == -q;
  }

  /** The equity factor of one trade, `1 + pnl/100`. */
  function Factor(pnlPct: real): real
  {
    1.0 + pnlPct / 100.0
  }

  /** A long trade's factor is the price ratio exit/entry, so it is positive whenever prices are. */
  lemma LongFactorIsPriceRatio(entry: real, exit: real)
    requires entry > 0.0
    ensures Factor(PnlPct(Long, entry, exit)) == exit / entry
    ensures exit > 0.0 ==> Factor(PnlPct(Long, entry, exit)) > 0.0
  {
    var q := (exit - entry) / entry;
    assert PnlPct(Long, entry, exit) / 100.0 == q;
    DivSub(exit, entry, entry);
    DivSelf(entry);
    if exit > 0.0 {
      DivPositive(exit, entry);
    }
  }

  lemma DivSub(x: real, y: real, z: real)
    requires y != 0.0
    ensures (x - z) / y == x / y - z / y
  {
  }

  lemma DivSelf(y: real)
    requires y != 0.0
    ensures y / y == 1.0
  {
  }

  lemma DivPositive(x: real, y: real)
    requires x > 0.0 && y > 0.0
    ensures x / y > 0.0
  {
  }

  lemma DivAtMostOne(x: real, y: real)
    requires 0.0 < x <= y
    ensures x / y <= 1.0
  {
  }

  /** Every trade indexes into the series and has a nonzero entry price. */
  predicate PricedTrades(trades: seq<Trade>, bars: seq<Bar>)
  {
    forall k :: 0 <= k < |trades| ==>
      trades[k].entryIdx < |bars| && trades[k].exitIdx < |bars| && bars[trades[k].entryIdx].close != 0.0
  }

  /** The ledger row of one trade, read from the bars at its entry and exit. */
  function RowFor(t: Trade, bars: seq<Bar>): LedgerRow
    requires t.entryIdx < |bars| && t.exitIdx < |bars| && bars[t.entryIdx].close != 0.0
  {
    var entry := bars[t.entryIdx];
    var exit := bars[t.exitIdx];
    LedgerRow(entry.timestamp, exit.timestamp, entry.close, exit.close, t.side,
              PnlPct(t.side, entry.close, exit.close))
  }

  /** The `pnl_pct` column. */
  function PnlColumn(rows: seq<LedgerRow>): (c: seq<real>)
    ensures |c| == |rows|
  {
    seq(|rows|, k requires 0 <= k < |rows| => rows[k].pnlPct)
  }

  // ---------------------------------------------------------------------------
  // cumsum

  /** The sum of a sequence, 0 when empty. */
  function Sum(xs: seq<real>): real
  {
    if |xs| == 0 then 0.0 else Sum(xs[..|xs| - 1]) + xs[|xs| - 1]
  }

  /** `cumsum`: each entry adds the current value to the previous entry. */
  function RunningSums(xs: seq<real>): (c: seq<real>)
    ensures |c| == |xs|
  {
    if |xs| == 0 then []
    else
      var c := RunningSums(xs[..|xs| - 1]);
      c + [(if |c| == 0 then 0.0 else c[|c| - 1]) + xs[|xs| - 1]]
  }

  /** Entry k of the running sum is the sum of the first k+1 values. */
  lemma {:induction false} RunningSumsAt(xs: seq<real>, k: nat)
    requires k < |xs|
    ensures RunningSums(xs)[k] == Sum(xs[..k + 1])
    decreases |xs|
  {
    var ys := xs[..|xs| - 1];
    if k < |xs| - 1 {
      RunningSumsAt(ys, k);
      assert ys[..k + 1] == xs[..k + 1];
    } else {
      assert xs[..k + 1] == xs;
      if k > 0 {
        RunningSumsAt(ys, k - 1);
        assert ys[..k] == ys;
        assert xs[..k + 1][..k] == ys;
      }
    }
  }

  /** The last cumulative value is the total. */
  lemma LastCumulativeIsTotal(xs: seq<real>)
    requires |xs| > 0
    ensures RunningSums(xs)[|xs| - 1] == Sum(xs)
  {
    RunningSumsAt(xs, |xs| - 1);
    assert xs[..|xs|] == xs;
  }

  // ---------------------------------------------------------------------------
  // Win rate

  /** The number of trades with strictly positive return; breakeven trades are not wins. */
  function CountWins(xs: seq<real>): (n: nat)
    ensures n <= |xs|
  {
    if |xs| == 0 then 0 else CountWins(xs[..|xs| - 1]) + (if xs[|xs| - 1] > 0.0 then 1 else 0)
  }

  /** `(pnl_pct > 0).mean() * 100`, 0 for an empty ledger. */
  function WinRatePct(xs: seq<real>): (w: real)
    ensures 0.0 <= w <= 100.0
  {
    if |xs| == 0 then 0.0 else 100.0 * (CountWins(xs) as real) / (|xs| as real)
  }

  /** All strictly positive trades give a win rate of 100; no positive trade (breakevens included) gives 0. */
  lemma {:induction false} CountWinsExtremes(xs: seq<real>)
    ensures (forall k :: 0 <= k < |xs| ==> xs[k] > 0.0) ==> CountWins(xs) == |xs|
    ensures (forall k :: 0 <= k < |xs| ==> xs[k] <= 0.0) ==> CountWins(xs) == 0
  {
    if |xs| > 0 {
      CountWinsExtremes(xs[..|xs| - 1]);
    }
  }

  lemma WinRateExtremes(xs: seq<real>)
    requires |xs| > 0
    ensures (forall k :: 0 <= k < |xs| ==> xs[k] > 0.0) ==> WinRatePct(xs) == 100.0
    ensures (forall k :: 0 <= k < |xs| ==> xs[k] <= 0.0) ==> WinRatePct(xs) == 0.0
  {
    CountWinsExtremes(xs);
  }

  // ---------------------------------------------------------------------------
  // Equity curve and drawdown

  /** `(1 + pnl/100).cumprod()`: the compounded equity after each trade. */
  function Equity(xs: seq<real>): (e: seq<real>)
    ensures |e| == |xs|
  {
    if |xs| == 0 then []
    else
      var e := Equity(xs[..|xs| - 1]);
      e + [(if |e| == 0 then 1.0 else e[|e| - 1]) * Factor(xs[|xs| - 1])]
  }

  /** The product of the factors of a sequence of returns. */
  function Compounded(xs: seq<real>): real
  {
    if |xs| == 0 then 1.0 else Compounded(xs[..|xs| - 1]) * Factor(xs[|xs| - 1])
  }

  /** Entry k of the equity curve is the product of the first k+1 factors. */
  lemma {:induction false} EquityAt(xs: seq<real>, k: nat)
    requires k < |xs|
    ensures Equity(xs)[k] == Compounded(xs[..k + 1])
    decreases |xs|
  {
    var ys := xs[..|xs| - 1];
    if k < |xs| - 1 {
      EquityAt(ys, k);
      assert ys[..k + 1] == xs[..k + 1];
    } else {
      assert xs[..k + 1] == xs;
      if k > 0 {
        EquityAt(ys, k - 1);
        assert ys[..k] == ys;
      } else {
        assert xs[..1][..0] == [];
      }
    }
  }

  /** Entries of a prefix's curve are entries of the whole curve. */
  lemma EquityPrefixAt(xs: seq<real>, k: nat)
    requires 0 < |xs| && k < |xs| - 1
    ensures Equity(xs)[k] == Equity(xs[..|xs| - 1])[k]
  {
  }

  /** `cummax`: the running peak. */
  function RunningMax(xs: seq<real>): (m: seq<real>)
    ensures |m| == |xs|
  {
    if |xs| == 0 then []
    else
      var m := RunningMax(xs[..|xs| - 1]);
      var x := xs[|xs| - 1];
      m + [if |m| == 0 || m[|m| - 1] < x then x else m[|m| - 1]]
  }

  /** Entries of a prefix's peaks are entries of the whole sequence's peaks. */
  lemma RunningMaxPrefixAt(xs: seq<real>, k: nat)
    requires 0 < |xs| && k < |xs| - 1
    ensures RunningMax(xs)[k] == RunningMax(xs[..|xs| - 1])[k]
  {
  }

  /** The peak at k bounds every value up to k and is one of them. */
  lemma {:induction false} RunningMaxAt(xs: seq<real>, k: nat)
    requires k < |xs|
    ensures forall j :: 0 <= j <= k ==> xs[j] <= RunningMax(xs)[k]
    ensures exists j :: 0 <= j <= k && RunningMax(xs)[k] == xs[j]
    decreases |xs|
  {
    var ys := xs[..|xs| - 1];
    assert forall j :: 0 <= j < |xs| - 1 ==> ys[j] == xs[j];
    if k < |xs| - 1 {
      RunningMaxAt(ys, k);
      RunningMaxPrefixAt(xs, k);
    } else if k > 0 {
      RunningMaxAt(ys, k - 1);
      var m := RunningMax(ys);
      var i :| 0 <= i <= k - 1 && m[k - 1] == ys[i];
      if m[k - 1] < xs[k] {
        assert RunningMax(xs)[k] == xs[k];
      } else {
        assert RunningMax(xs)[k] == xs[i];
      }
    } else {
      assert RunningMax(xs)[0] == xs[0];
    }
  }

  /** `(equity - peak) / peak` at one point; undefined (NaN) where the peak is 0. */
  function DrawdownPoint(e: real, pk: real): Option<real>
  {
    if pk == 0.0 then None else Some((e - pk) / pk)
  }

  /** The drawdown curve. */
  function Drawdowns(xs: seq<real>): (d: seq<Option<real>>)
    ensures |d| == |xs|
  {
    var e := Equity(xs);
    var pk := RunningMax(e);
    seq(|xs|, k requires 0 <= k < |xs| => DrawdownPoint(e[k], pk[k]))
  }

  /** `Series.min()`: the least defined value, undefined when every value is undefined. */
  function MinDefined(xs: seq<Option<real>>): (r: Option<real>)
    ensures r.None? <==> forall k :: 0 <= k < |xs| ==> xs[k].None?
    ensures r.Some? ==> forall k :: 0 <= k < |xs| && xs[k].Some? ==> r.value <= xs[k].value
    ensures r.Some? ==> exists k :: 0 <= k < |xs| && xs[k] == r
  {
    if |xs| == 0 then None
    else
      var m := MinDefined(xs[..|xs| - 1]);
      assert forall k :: 0 <= k < |xs| - 1 ==> xs[..|xs| - 1][k] == xs[k];
      match xs[|xs| - 1]
      case None => m
      case Some(v) => if m.Some? && m.value <= v then m else Some(v)
  }

  /** `drawdowns.min() * 100`, and 0 for an empty ledger. */
  function MaxDrawdownPct(xs: seq<real>): Option<real>
  {
    if |xs| == 0 then Some(0.0)
    else
      match MinDefined(Drawdowns(xs))
      case None => None
      case Some(d) => Some(d * 100.0)
  }

  /** When the first factor is 0 the curve stays at 0 forever. */
  lemma {:induction false} EquityZeroAfterZeroFactor(xs: seq<real>)
    requires |xs| > 0 && Factor(xs[0]) == 0.0
    ensures forall k :: 0 <= k < |xs| ==> Equity(xs)[k] == 0.0
    decreases |xs|
  {
    if |xs| > 1 {
      var ys := xs[..|xs| - 1];
      EquityZeroAfterZeroFactor(ys);
      forall k | 0 <= k < |xs| - 1 ensures Equity(xs)[k] == 0.0 {
        EquityPrefixAt(xs, k);
      }
    }
  }

  /** The first drawdown is 0 unless the first peak is 0, in which case every peak is 0. */
  lemma FirstDrawdown(xs: seq<real>)
    requires |xs| > 0
    ensures RunningMax(Equity(xs))[0] == Factor(xs[0])
    ensures Factor(xs[0]) != 0.0 ==> Drawdowns(xs)[0] == Some(0.0)
    ensures Factor(xs[0]) == 0.0 ==> forall k :: 0 <= k < |xs| ==> Drawdowns(xs)[k].None?
  {
    var e := Equity(xs);
    var pk := RunningMax(e);
    FirstEquity(xs);
    FirstPeak(e);
    if Factor(xs[0]) == 0.0 {
      EquityZeroAfterZeroFactor(xs);
      ZeroPeaks(e);
      forall k | 0 <= k < |xs| ensures Drawdowns(xs)[k].None? {
        DrawdownAt(xs, k);
      }
    } else {
      DrawdownAt(xs, 0);
    }
  }

  /** The curve starts at the first factor. */
  lemma FirstEquity(xs: seq<real>)
    requires |xs| > 0
    ensures Equity(xs)[0] == Factor(xs[0])
  {
    EquityAt(xs, 0);
    assert xs[..1][..0] == [];
  }

  /** The first peak is the first value. */
  lemma FirstPeak(e: seq<real>)
    requires |e| > 0
    ensures RunningMax(e)[0] == e[0]
  {
    RunningMaxAt(e, 0);
  }

  /** A curve that is 0 everywhere has peak 0 everywhere. */
  lemma {:induction false} ZeroPeaks(e: seq<real>)
    requires forall k :: 0 <= k < |e| ==> e[k] == 0.0
    ensures forall k :: 0 <= k < |e| ==> RunningMax(e)[k] == 0.0
    decreases |e|
  {
    if |e| > 0 {
      var p := e[..|e| - 1];
      assert forall k :: 0 <= k < |p| ==> p[k] == e[k];
      ZeroPeaks(p);
    }
  }

  /** Point k of the drawdown curve, from the equity and the peak at k. */
  lemma DrawdownAt(xs: seq<real>, k: nat)
    requires k < |xs|
    ensures Drawdowns(xs)[k] == DrawdownPoint(Equity(xs)[k], RunningMax(Equity(xs))[k])
  {
  }

  /** Undefined exactly when the first trade lost exactly 100% (the whole curve is 0). */
  lemma MaxDrawdownUndefinedIff(xs: seq<real>)
    ensures MaxDrawdownPct(xs).None? <==> |xs| > 0 && Factor(xs[0]) == 0.0
  {
    if |xs| > 0 {
      FirstDrawdown(xs);
    }
  }

  /** Whenever it is defined, the maximum drawdown is at most 0: the first point is its own peak. */
  lemma MaxDrawdownNonPositive(xs: seq<real>)
    ensures MaxDrawdownPct(xs).Some? ==> MaxDrawdownPct(xs).value <= 0.0
  {
    if |xs| > 0 {
      FirstDrawdown(xs);
    }
  }

  /** Every factor is positive. */
  predicate PositiveFactors(xs: seq<real>)
  {
    forall k :: 0 <= k < |xs| ==> Factor(xs[k]) > 0.0
  }

  /** With positive factors the whole equity curve is positive. */
  lemma {:induction false} EquityPositive(xs: seq<real>)
    requires PositiveFactors(xs)
    ensures forall k :: 0 <= k < |xs| ==> Equity(xs)[k] > 0.0
    decreases |xs|
  {
    if |xs| > 0 {
      var ys := xs[..|xs| - 1];
      EquityPositive(ys);
      var e := Equity(ys);
      var last := if |e| == 0 then 1.0 else e[|e| - 1];
      MulPositive(last, Factor(xs[|xs| - 1]));
      forall k | 0 <= k < |xs| - 1 ensures Equity(xs)[k] > 0.0 {
        EquityPrefixAt(xs, k);
      }
    }
  }

  lemma MulPositive(a: real, b: real)
    requires a > 0.0 && b > 0.0
    ensures a * b > 0.0
  {
  }

  /** A drawdown point with positive equity and peak lies in (-1, 0]. */
  lemma DrawdownPointBounds(e: real, pk: real)
    requires 0.0 < e <= pk
    ensures -1.0 < (e - pk) / pk <= 0.0
  {
    DivSub(e, pk, pk);
    DivSelf(pk);
    DivPositive(e, pk);
    DivAtMostOne(e, pk);
  }

  /**
   * With every factor positive (no trade lost 100% or more) the maximum drawdown is
   * defined and lies in (-100, 0].
   */
  lemma MaxDrawdownBounds(xs: seq<real>)
    requires PositiveFactors(xs)
    ensures MaxDrawdownPct(xs).Some?
    ensures -100.0 < MaxDrawdownPct(xs).value <= 0.0
  {
    if |xs| > 0 {
      FirstDrawdown(xs);
      EquityPositive(xs);
      var e := Equity(xs);
      var pk := RunningMax(e);
      var dd := Drawdowns(xs);
      forall k | 0 <= k < |xs| ensures dd[k].Some? && -1.0 < dd[k].value <= 0.0 {
        RunningMaxAt(e, k);
        DrawdownPointBounds(e[k], pk[k]);
      }
      var m := MinDefined(dd);
      var j :| 0 <= j < |dd| && dd[j] == m;
      assert -1.0 < m.value;
      MaxDrawdownNonPositive(xs);
    }
  }

  /** A non-decreasing sequence is its own running peak. */
  lemma {:induction false} RunningMaxOfNonDecreasing(xs: seq<real>)
    requires forall k :: 0 < k < |xs| ==> xs[k - 1] <= xs[k]
    ensures forall k :: 0 <= k < |xs| ==> RunningMax(xs)[k] == xs[k]
    decreases |xs|
  {
    if |xs| > 0 {
      var ys := xs[..|xs| - 1];
      assert forall j :: 0 <= j < |xs| - 1 ==> ys[j] == xs[j];
      RunningMaxOfNonDecreasing(ys);
      forall k | 0 <= k < |xs| - 1 ensures RunningMax(xs)[k] == xs[k] {
        RunningMaxPrefixAt(xs, k);
      }
    }
  }

  /** With no losing trade the equity curve never falls. */
  lemma NoLossEquityNonDecreasing(xs: seq<real>)
    requires forall k :: 0 <= k < |xs| ==> xs[k] >= 0.0
    ensures forall k :: 0 < k < |xs| ==> Equity(xs)[k - 1] <= Equity(xs)[k]
    ensures forall k :: 0 <= k < |xs| ==> Equity(xs)[k] >= 1.0
  {
    forall k | 0 <= k < |xs| ensures Equity(xs)[k] >= 1.0 && (k > 0 ==> Equity(xs)[k - 1] <= Equity(xs)[k]) {
      NoLossEquityAt(xs, k);
    }
  }

  lemma {:induction false} NoLossEquityAt(xs: seq<real>, k: nat)
    requires forall j :: 0 <= j < |xs| ==> xs[j] >= 0.0
    requires k < |xs|
    ensures Equity(xs)[k] >= 1.0
    ensures k > 0 ==> Equity(xs)[k - 1] <= Equity(xs)[k]
    decreases |xs|
  {
    var ys := xs[..|xs| - 1];
    if k < |xs| - 1 {
      NoLossEquityAt(ys, k);
      EquityPrefixAt(xs, k);
      if k > 0 {
        EquityPrefixAt(xs, k - 1);
      }
    } else {
      var e := Equity(ys);
      var last := if |e| == 0 then 1.0 else e[|e| - 1];
      if |e| > 0 {
        NoLossEquityAt(ys, |e| - 1);
        EquityPrefixAt(xs, k - 1);
      }
      var f := Factor(xs[|xs| - 1]);
      assert f >= 1.0;
      assert last * f >= last by {
        MulNonNegativeDiff(last, f);
      }
    }
  }

  lemma MulNonNegativeDiff(a: real, f: real)
    requires a >= 1.0 && f >= 1.0
    ensures a * f >= a
  {
    assert a * (f - 1.0) >= 0.0;
  }

  /** With no losing trade the drawdown is exactly 0. */
  lemma NoLossNoDrawdown(xs: seq<real>)
    requires forall k :: 0 <= k < |xs| ==> xs[k] >= 0.0
    ensures MaxDrawdownPct(xs) == Some(0.0)
  {
    if |xs| > 0 {
      var e := Equity(xs);
      NoLossEquityNonDecreasing(xs);
      RunningMaxOfNonDecreasing(e);
      forall k | 0 <= k < |xs| ensures Drawdowns(xs)[k] == Some(0.0) {
        DrawdownAt(xs, k);
        DrawdownAtPeak(e[k]);
      }
      MinOfZeros(Drawdowns(xs));
    }
  }

  /** A point at its own peak has drawdown 0. */
  lemma DrawdownAtPeak(x: real)
    requires x != 0.0
    ensures DrawdownPoint(x, x) == Some(0.0)
  {
  }

  /** The minimum of a non-empty run of zeros is 0. */
  lemma MinOfZeros(dd: seq<Option<real>>)
    requires |dd| > 0 && forall k :: 0 <= k < |dd| ==> dd[k] == Some(0.0)
    ensures MinDefined(dd) == Some(0.0)
  {
    assert dd[0].Some?;
  }

  // ---------------------------------------------------------------------------
  // The summary

  datatype Summary = Summary(totalTrades: nat, totalPnlPct: real, avgPnlPct: real, winRatePct: real,
                             maxDrawdownPct: Option<real>)

  /** The summary of a `pnl_pct` column. */
  function Summarize(xs: seq<real>): (s: Summary)
    ensures s.totalTrades == |xs|
    ensures |xs| == 0 ==> s == Summary(0, 0.0, 0.0, 0.0, Some(0.0))
    ensures s.totalPnlPct == Sum(xs)
    ensures |xs| > 0 ==> s.avgPnlPct == s.totalPnlPct / (|xs| as real)
    ensures 0.0 <= s.winRatePct <= 100.0
    ensures s.maxDrawdownPct.Some? ==> s.maxDrawdownPct.value <= 0.0
  {
    MaxDrawdownNonPositive(xs);
    if |xs| == 0 then Summary(0, 0.0, 0.0, 0.0, Some(0.0))
    else
      var total := Sum(xs);
      Summary(|xs|, total, total / (|xs| as real), WinRatePct(xs), MaxDrawdownPct(xs))
  }

  /** The mean times the number of trades gives back the total. */
  lemma MeanTimesCountIsTotal(xs: seq<real>)
    requires |xs| > 0
    ensures Summarize(xs).avgPnlPct * (|xs| as real) == Summarize(xs).totalPnlPct
  {
    var s := Summarize(xs);
    MeanTimesCount(s.totalPnlPct, |xs| as real);
  }

  /** The mean times the count gives back the total. */
  lemma MeanTimesCount(total: real, n: real)
    requires n > 0.0
    ensures (total / n) * n == total
  {
  }

  /** The worked example: returns +10, -5, -5, +2 have a maximum drawdown of -9.75%. */
  lemma DrawdownExample()
    ensures MaxDrawdownPct([10.0, -5.0, -5.0, 2.0]) == Some(-9.75)
  {
    ExampleDrawdowns();
    ExampleMin();
  }

  lemma ExampleDrawdowns()
    ensures Drawdowns([10.0, -5.0, -5.0, 2.0]) == [Some(0.0), Some(-0.05), Some(-0.0975), Some(-0.07945)]
  {
    var xs := [10.0, -5.0, -5.0, 2.0];
    ExampleEquity();
    ExamplePeaks();
    var dd := Drawdowns(xs);
    assert dd[0] == Some((1.1 - 1.1) / 1.1);
    assert dd[1] == Some((1.045 - 1.1) / 1.1);
    assert dd[2] == Some((0.99275 - 1.1) / 1.1);
    assert dd[3] == Some((1.012605 - 1.1) / 1.1);
  }

  lemma ExampleEquity()
    ensures Equity([10.0, -5.0, -5.0, 2.0]) == [1.1, 1.045, 0.99275, 1.012605]
  {
    var xs := [10.0, -5.0, -5.0, 2.0];
    assert xs[..3] == [10.0, -5.0, -5.0];
    assert xs[..3][..2] == [10.0, -5.0];
    assert xs[..3][..2][..1] == [10.0];
    assert [10.0][..0] == [];
    assert Equity([10.0]) == [1.1];
    assert Equity([10.0, -5.0]) == [1.1, 1.045];
    assert Equity([10.0, -5.0, -5.0]) == [1.1, 1.045, 0.99275];
  }

  lemma ExamplePeaks()
    ensures RunningMax([1.1, 1.045, 0.99275, 1.012605]) == [1.1, 1.1, 1.1, 1.1]
  {
    RunningMaxSnoc([], 1.1);
    assert [] + [1.1] == [1.1];
    RunningMaxSnoc([1.1], 1.045);
    assert [1.1] + [1.045] == [1.1, 1.045];
    RunningMaxSnoc([1.1, 1.045], 0.99275);
    assert [1.1, 1.045] + [0.99275] == [1.1, 1.045, 0.99275];
    RunningMaxSnoc([1.1, 1.045, 0.99275], 1.012605);
    assert [1.1, 1.045, 0.99275] + [1.012605] == [1.1, 1.045, 0.99275, 1.012605];
  }

  /** One more value extends the peaks by the larger of it and the last peak. */
  lemma RunningMaxSnoc(xs: seq<real>, x: real)
    ensures RunningMax(xs + [x]) == RunningMax(xs) + [if |xs| == 0 || RunningMax(xs)[|xs| - 1] < x then x else RunningMax(xs)[|xs| - 1]]
  {
    assert (xs + [x])[..|xs|] == xs;
  }

  lemma ExampleMin()
    ensures MinDefined([Some(0.0), Some(-0.05), Some(-0.0975), Some(-0.07945)]) == Some(-0.0975)
  {
    var dd := [Some(0.0), Some(-0.05), Some(-0.0975), Some(-0.07945)];
    assert dd[..3] == [Some(0.0), Some(-0.05), Some(-0.0975)];
    assert dd[..3][..2] == [Some(0.0), Some(-0.05)];
    assert dd[..3][..2][..1] == [Some(0.0)];
    assert [Some(0.0)][..0] == [];
    assert MinDefined([Some(0.0)]) == Some(0.0);
    assert MinDefined([Some(0.0), Some(-0.05)]) == Some(-0.05);
    assert MinDefined([Some(0.0), Some(-0.05), Some(-0.0975)]) == Some(-0.0975);
  }

  // ---------------------------------------------------------------------------
  // The ledger loop

  /**
   * `compute_returns_from_trades`: one row per trade in emission order, each read
   * from the bars at the trade's entry and exit, and the running sum of `pnl_pct`.
   */
  method ComputeReturnsFromTrades(trades: seq<Trade>, bars: seq<Bar>) returns (ledger: TradeLedger)
    requires PricedTrades(trades, bars)
    ensures |ledger.rows| == |trades|
    ensures forall k :: 0 <= k < |trades| ==> ledger.rows[k] == RowFor(trades[k], bars)
    ensures ledger.cumulativePnlPct == RunningSums(PnlColumn(ledger.rows))
  {
    var rows: seq<LedgerRow> := [];
    for k := 0 to |trades|
      invariant |rows| == k
      invariant forall j :: 0 <= j < k ==> rows[j] == RowFor(trades[j], bars)
    {
      var t := trades[k];
      var entryPrice := bars[t.entryIdx].close;
      var exitPrice := bars[t.exitIdx].close;
      var pnl := if t.side == Long then (exitPrice - entryPrice) / entryPrice
                 else (entryPrice - exitPrice) / entryPrice;
      rows := rows + [LedgerRow(bars[t.entryIdx].timestamp, bars[t.exitIdx].timestamp,
                                entryPrice, exitPrice, t.side, pnl * 100.0)];
    }
    ledger := TradeLedger(rows, RunningSums(PnlColumn(rows)));
  }
}
