/**
 * `tag_market_regime` (streamlit_app/utils/strategies.py): the short-series fallback and the
 * priority-ordered threshold rule. The volatility (a standard deviation of returns) and the
 * slope of the fitted log-price line are inputs: they are computed with `sqrt`, `log` and a
 * least-squares fit, which this model does not compute.
 */
module Regime {
  import opened Wrappers

  datatype Label = Trending | Volatile | Ranging | Unknown

  /** The label and the metrics reported with it. */
  datatype Tagged = Tagged(regime: Label, vol: Option<real>, trend: real)

  const TrendThreshold: real := 0.0005
  const VolThreshold: real := 0.005
  /** The longest window the slope is fitted over. */
  const SlopeWindow: nat := 50
  /** The fewest points the slope is fitted over. */
  const MinFitPoints: nat := 3

  function Abs(x: real): (a: real)
    ensures a >= 0.0 && (a == x || a == -x)
  {
    if x < 0.0 then -x else x
  }

  /** `min(50, len(df))`: the number of final closes the slope is fitted over. */
  function Window(n: nat): (w: nat)
    ensures w <= SlopeWindow && w <= n
    ensures w == n || w == SlopeWindow
  {
    if n < SlopeWindow then n else SlopeWindow
  }

  /** The window is too short for a fit exactly when the series has fewer than 3 bars. */
  lemma ShortWindowIffShortSeries(n: nat)
    ensures Window(n) < MinFitPoints <==> n < MinFitPoints
  {
  }

  /** The volatility test; an undefined volatility (NaN) never exceeds the threshold. */
  predicate HighVol(vol: Option<real>)
  {
    vol.Some? && vol.value > VolThreshold
  }

  /**
   * The regime of a series of `n` bars with volatility `vol` and fitted slope `slope`
   * (the slope is only read when the window holds at least 3 points).
   */
  function TagMarketRegime(n: nat, vol: Option<real>, slope: real): (t: Tagged)
    ensures t.vol == vol
    ensures t.regime == Unknown <==> n < MinFitPoints
    ensures t.regime == Unknown ==> t.trend == 0.0
    ensures t.regime != Unknown ==> t.trend == slope
    ensures t.regime == Trending <==> n >= MinFitPoints && Abs(slope) > TrendThreshold
    ensures t.regime == Volatile <==> n >= MinFitPoints && Abs(slope) <= TrendThreshold && HighVol(vol)
    ensures t.regime == Ranging <==> n >= MinFitPoints && Abs(slope) <= TrendThreshold && !HighVol(vol)
  {
    ShortWindowIffShortSeries(n);
    if Window(n) < MinFitPoints then Tagged(Unknown, vol, 0.0)
    else if Abs(slope) > TrendThreshold then Tagged(Trending, vol, slope)
    else if HighVol(vol) then Tagged(Volatile, vol, slope)
    else Tagged(Ranging, vol, slope)
  }

  /** A strong enough trend wins whatever the volatility. */
  lemma TrendDominatesVolatility(n: nat, vol1: Option<real>, vol2: Option<real>, slope: real)
    requires TagMarketRegime(n, vol1, slope).regime == Trending
    ensures TagMarketRegime(n, vol2, slope).regime == Trending
  {
  }

  /** The classification depends on the slope only through its magnitude. */
  lemma SlopeSignIrrelevant(n: nat, vol: Option<real>, slope: real)
    ensures TagMarketRegime(n, vol, slope).regime == TagMarketRegime(n, vol, -slope).regime
  {
  }

  /** A steeper slope never turns a trending series into a non-trending one. */
  lemma TrendingMonotone(n: nat, vol: Option<real>, slope1: real, slope2: real)
    requires Abs(slope1) <= Abs(slope2)
    requires TagMarketRegime(n, vol, slope1).regime == Trending
    ensures TagMarketRegime(n, vol, slope2).regime == Trending
  {
  }

  /** A higher volatility never turns a volatile series into a ranging one. */
  lemma VolatileMonotone(n: nat, v1: real, v2: real, slope: real)
    requires v1 <= v2
    requires TagMarketRegime(n, Some(v1), slope).regime == Volatile
    ensures TagMarketRegime(n, Some(v2), slope).regime == Volatile
  {
  }

  /** An undefined volatility with a flat slope is ranging, never volatile. */
  lemma UndefinedVolIsRanging(n: nat, slope: real)
    requires n >= MinFitPoints && Abs(slope) <= TrendThreshold
    ensures TagMarketRegime(n, None, slope).regime == Ranging
  {
  }
}
