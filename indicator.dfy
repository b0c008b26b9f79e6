/**
 * The RSI oscillator computed from a closing-price series
 * (streamlit_app/utils/strategies.py, function `rsi`).
 *
 * Bar-to-bar differences are split into an "up" and a "down" part, each part
 * is smoothed by an unadjusted exponentially weighted mean with smoothing
 * factor 1/period, and the ratio of the two means is mapped into [0, 100).
 * Entry 0 has no previous bar, so it is undefined (`None`).
 */
module Indicator {
  import opened Wrappers

  /** The guard added to the down-average so that the ratio never divides by zero. */
  const Epsilon: real := 0.000000001

  /** `delta.clip(lower=0)`: the rise of one bar, or 0. */
  function Up(d: real): (u: real)
    ensures u >= 0.0
    ensures u > 0.0 <==> d > 0.0
  {
    if d > 0.0 then d else 0.0
  }

  /** `-1 * delta.clip(upper=0)`: the fall of one bar as a positive number, or 0. */
  function Down(d: real): (w: real)
    ensures w >= 0.0
    ensures w > 0.0 <==> d < 0.0
  {
    if d < 0.0 then -d else 0.0
  }

  /** The two parts rebuild the difference, and at most one of them is nonzero. */
  lemma UpDownPartition(d: real)
    ensures Up(d) - Down(d) == d
    ensures Up(d) == 0.0 || Down(d) == 0.0
  {
  }

  /** `series.diff()` without its undefined first entry: entry k is close[k+1] - close[k]. */
  function Diffs(xs: seq<real>): seq<real>
  {
    if |xs| == 0 then [] else seq(|xs| - 1, k requires 0 <= k < |xs| - 1 => xs[k + 1] - xs[k])
  }

  function Ups(ds: seq<real>): seq<real>
  {
    seq(|ds|, k requires 0 <= k < |ds| => Up(ds[k]))
  }

  function Downs(ds: seq<real>): seq<real>
  {
    seq(|ds|, k requires 0 <= k < |ds| => Down(ds[k]))
  }

  /**
   * `ewm(alpha=alpha, adjust=False).mean()` over a fully defined series:
   * the mean starts at the first value and then follows
   * m[t] = (1 - alpha) * m[t-1] + alpha * x[t].
   */
  function Ewm(xs: seq<real>, alpha: real): (m: seq<real>)
    ensures |m| == |xs|
    decreases |xs|
  {
    if |xs| == 0 then []
    else if |xs| == 1 then [xs[0]]
    else
      var prev := Ewm(xs[..|xs| - 1], alpha);
      prev + [EwmStep(prev[|prev| - 1], xs[|xs| - 1], alpha)]
  }

  /** One step of the unadjusted recurrence. */
  function EwmStep(prev: real, x: real, alpha: real): real
  {
    (1.0 - alpha) * prev + alpha * x
  }

  /** The mean of a prefix is the prefix of the mean: the average never looks ahead. */
  lemma {:induction false} EwmPrefix(xs: seq<real>, alpha: real, k: nat)
    requires k <= |xs|
    ensures Ewm(xs[..k], alpha) == Ewm(xs, alpha)[..k]
    decreases |xs|
  {
    if k < |xs| {
      var ys := xs[..|xs| - 1];
      EwmPrefix(ys, alpha, k);
      assert ys[..k] == xs[..k];
      assert Ewm(xs, alpha)[..|xs| - 1] == Ewm(ys, alpha);
    } else {
      assert xs[..k] == xs;
    }
  }

  /** The last smoothed value is one step of the recurrence from the mean of the shorter prefix. */
  lemma EwmLast(ys: seq<real>, alpha: real)
    requires |ys| > 1
    ensures Ewm(ys, alpha)[|ys| - 1] == EwmStep(Ewm(ys[..|ys| - 1], alpha)[|ys| - 2], ys[|ys| - 1], alpha)
  {
  }

  /** The recursive definition satisfies the recurrence stated index by index. */
  lemma EwmRecurrence(xs: seq<real>, alpha: real, t: nat)
    requires 1 <= t < |xs|
    ensures Ewm(xs, alpha)[0] == xs[0]
    ensures Ewm(xs, alpha)[t] == (1.0 - alpha) * Ewm(xs, alpha)[t - 1] + alpha * xs[t]
  {
    EwmFirst(xs, alpha);
    EwmStepAt(xs, alpha, t);
  }

  /** Entry t of the mean is one recurrence step from entry t - 1. */
  lemma EwmStepAt(xs: seq<real>, alpha: real, t: nat)
    requires 1 <= t < |xs|
    ensures Ewm(xs, alpha)[t] == EwmStep(Ewm(xs, alpha)[t - 1], xs[t], alpha)
  {
    var e := Ewm(xs, alpha);
    var ys := xs[..t + 1];
    EwmPrefix(xs, alpha, t + 1);
    EwmPrefix(xs, alpha, t);
    assert ys[..t] == xs[..t];
    assert Ewm(ys, alpha)[t] == e[t] && Ewm(ys[..t], alpha)[t - 1] == e[t - 1] && ys[t] == xs[t];
    EwmLast(ys, alpha);
  }

  /** The mean starts at the first value. */
  lemma EwmFirst(xs: seq<real>, alpha: real)
    requires |xs| > 0
    ensures Ewm(xs, alpha)[0] == xs[0]
  {
    EwmPrefix(xs, alpha, 1);
    assert xs[..1] == [xs[0]];
  }

  lemma MulNonNegative(a: real, b: real)
    requires a >= 0.0 && b >= 0.0
    ensures a * b >= 0.0
  {
  }

  /** A convex combination of two values in [lo, hi] stays in [lo, hi]. */
  lemma ConvexStep(a: real, x: real, alpha: real, lo: real, hi: real)
    requires 0.0 <= alpha <= 1.0
    requires lo <= a <= hi && lo <= x <= hi
    ensures lo <= (1.0 - alpha) * a + alpha * x <= hi
  {
    var m := (1.0 - alpha) * a + alpha * x;
    MulNonNegative(1.0 - alpha, a - lo);
    MulNonNegative(alpha, x - lo);
    assert m - lo == (1.0 - alpha) * (a - lo) + alpha * (x - lo);
    MulNonNegative(1.0 - alpha, hi - a);
    MulNonNegative(alpha, hi - x);
    assert hi - m == (1.0 - alpha) * (hi - a) + alpha * (hi - x);
  }

  /**
   * If every input lies in [lo, hi] then so does every smoothed value; in particular
   * the means of non-negative parts are non-negative, and the means of all-zero parts are zero.
   */
  lemma {:induction false} EwmWithin(xs: seq<real>, alpha: real, lo: real, hi: real)
    requires 0.0 <= alpha <= 1.0
    requires forall k :: 0 <= k < |xs| ==> lo <= xs[k] <= hi
    ensures forall k :: 0 <= k < |xs| ==> lo <= Ewm(xs, alpha)[k] <= hi
    decreases |xs|
  {
    if |xs| > 1 {
      var ys := xs[..|xs| - 1];
      EwmWithin(ys, alpha, lo, hi);
      var prev := Ewm(ys, alpha);
      ConvexStep(prev[|prev| - 1], xs[|xs| - 1], alpha, lo, hi);
    }
  }

  /** `100 - 100 / (1 + rs)` with `rs = up / (down + 1e-9)`. */
  function RsiValue(up: real, down: real): (r: real)
    requires up >= 0.0 && down >= 0.0
    ensures 0.0 <= r < 100.0
    ensures r == 100.0 * up / (up + down + Epsilon)
  {
    var rs := up / (down + Epsilon);
    assert rs >= 0.0;
    assert (down + Epsilon) * rs == up;
    var q := 100.0 / (1.0 + rs);
    assert q * (1.0 + rs) == 100.0;
    assert 0.0 < q <= 100.0;
    assert (up + down + Epsilon) == (down + Epsilon) * (1.0 + rs);
    assert 100.0 - q == 100.0 * rs / (1.0 + rs);
    100.0 - q
  }

  /** The smoothing factor `1/period`. */
  function Alpha(period: nat): (a: real)
    requires period > 0
    ensures 0.0 < a <= 1.0
  {
    1.0 / (period as real)
  }

  /** The smoothed up- and down-averages, aligned with the differences (entry k belongs to bar k+1). */
  function UpAverages(closes: seq<real>, period: nat): seq<real>
    requires period > 0
  {
    Ewm(Ups(Diffs(closes)), Alpha(period))
  }

  function DownAverages(closes: seq<real>, period: nat): seq<real>
    requires period > 0
  {
    Ewm(Downs(Diffs(closes)), Alpha(period))
  }

  /** Both averages are non-negative at every bar. */
  lemma AveragesNonNegative(closes: seq<real>, period: nat)
    requires period > 0
    ensures |UpAverages(closes, period)| == |DownAverages(closes, period)| == |Diffs(closes)|
    ensures forall k :: 0 <= k < |Diffs(closes)| ==> UpAverages(closes, period)[k] >= 0.0
    ensures forall k :: 0 <= k < |Diffs(closes)| ==> DownAverages(closes, period)[k] >= 0.0
  {
    var ds := Diffs(closes);
    EwmWithin(Ups(ds), Alpha(period), 0.0, if |ds| == 0 then 0.0 else MaxOf(Ups(ds)));
    EwmWithin(Downs(ds), Alpha(period), 0.0, if |ds| == 0 then 0.0 else MaxOf(Downs(ds)));
  }

  /** The largest element of a non-empty sequence. */
  function MaxOf(xs: seq<real>): (m: real)
    requires |xs| > 0
    ensures forall k :: 0 <= k < |xs| ==> xs[k] <= m
    ensures exists k :: 0 <= k < |xs| && xs[k] == m
  {
    if |xs| == 1 then xs[0]
    else
      var m := MaxOf(xs[1..]);
      assert forall k :: 1 <= k < |xs| ==> xs[k] == xs[1..][k - 1];
      if xs[0] >= m then xs[0] else m
  }

  /**
   * The RSI series: same length as the input, entry 0 undefined, every later
   * entry defined and in [0, 100).
   */
  function Rsi(closes: seq<real>, period: nat): (r: seq<Option<real>>)
    requires period > 0
    ensures |r| == |closes|
    ensures |closes| > 0 ==> r[0] == None
    ensures forall t :: 1 <= t < |r| ==> r[t].Some? && 0.0 <= r[t].value < 100.0
  {
    if |closes| == 0 then []
    else
      var mu := UpAverages(closes, period);
      var md := DownAverages(closes, period);
      AveragesNonNegative(closes, period);
      [None] + seq(|closes| - 1, k requires 0 <= k < |closes| - 1 => Some(RsiValue(mu[k], md[k])))
  }

  /** Bar t >= 1 of the RSI is the ratio formula applied to the two averages at that bar. */
  lemma RsiAt(closes: seq<real>, period: nat, t: nat)
    requires period > 0 && 1 <= t < |closes|
    ensures |UpAverages(closes, period)| == |DownAverages(closes, period)| == |closes| - 1
    ensures UpAverages(closes, period)[t - 1] >= 0.0 && DownAverages(closes, period)[t - 1] >= 0.0
    ensures Rsi(closes, period)[t]
         == Some(RsiValue(UpAverages(closes, period)[t - 1], DownAverages(closes, period)[t - 1]))
  {
    AveragesNonNegative(closes, period);
    var mu := UpAverages(closes, period);
    var md := DownAverages(closes, period);
    var tail := seq(|closes| - 1, k requires 0 <= k < |closes| - 1 => Some(RsiValue(mu[k], md[k])));
    assert Rsi(closes, period) == [None] + tail;
    assert ([None] + tail)[t] == tail[t - 1];
  }

  /**
   * A series that never rises (a flat run in particular) has RSI exactly 0 at every
   * defined bar: the up-average is 0 and the epsilon guard keeps the ratio defined.
   */
  lemma NonRisingRsiZero(closes: seq<real>, period: nat)
    requires period > 0
    requires forall k :: 0 <= k < |closes| - 1 ==> closes[k + 1] <= closes[k]
    ensures forall t :: 1 <= t < |closes| ==> Rsi(closes, period)[t] == Some(0.0)
  {
    NonRisingUpAverageZero(closes, period);
    forall t | 1 <= t < |closes|
      ensures Rsi(closes, period)[t] == Some(0.0)
    {
      RsiAt(closes, period, t);
      RsiOfZeroUp(DownAverages(closes, period)[t - 1]);
    }
  }

  /** A series that never rises has no up-moves, so its up-average is 0 throughout. */
  lemma NonRisingUpAverageZero(closes: seq<real>, period: nat)
    requires period > 0
    requires forall k :: 0 <= k < |closes| - 1 ==> closes[k + 1] <= closes[k]
    ensures forall k :: 0 <= k < |Diffs(closes)| ==> UpAverages(closes, period)[k] == 0.0
  {
    var ups := Ups(Diffs(closes));
    assert forall k :: 0 <= k < |ups| ==> ups[k] == 0.0;
    EwmWithin(ups, Alpha(period), 0.0, 0.0);
  }

  /** No up-average means an RSI of 0. */
  lemma RsiOfZeroUp(down: real)
    requires down >= 0.0
    ensures RsiValue(0.0, down) == 0.0
  {
  }

  /** No down-average means an RSI of 100 * up / (up + 1e-9). */
  lemma RsiOfZeroDown(up: real)
    requires up >= 0.0
    ensures RsiValue(up, 0.0) == 100.0 * up / (up + Epsilon)
  {
    assert up + 0.0 + Epsilon == up + Epsilon;
  }

  /** A flat run: every defined RSI value is 0. */
  lemma FlatRunRsiZero(closes: seq<real>, period: nat)
    requires period > 0
    requires forall k :: 0 <= k < |closes| ==> closes[k] == closes[0]
    ensures forall t :: 1 <= t < |closes| ==> Rsi(closes, period)[t] == Some(0.0)
  {
    NonRisingRsiZero(closes, period);
  }

  /** A series that never falls has no down-moves, so its down-average is 0 throughout. */
  lemma NonFallingDownAverageZero(closes: seq<real>, period: nat)
    requires period > 0
    requires forall k :: 0 <= k < |closes| - 1 ==> closes[k] <= closes[k + 1]
    ensures forall k :: 0 <= k < |Diffs(closes)| ==> DownAverages(closes, period)[k] == 0.0
  {
    var downs := Downs(Diffs(closes));
    assert forall k :: 0 <= k < |downs| ==> downs[k] == 0.0;
    EwmWithin(downs, Alpha(period), 0.0, 0.0);
  }

  /**
   * A series that never falls has a zero down-average, so its RSI is
   * 100 * up / (up + 1e-9): the ratio of the up-average to itself plus the guard.
   */
  lemma NonFallingRsi(closes: seq<real>, period: nat, t: nat)
    requires period > 0 && 1 <= t < |closes|
    requires forall k :: 0 <= k < |closes| - 1 ==> closes[k] <= closes[k + 1]
    ensures |UpAverages(closes, period)| == |closes| - 1 && UpAverages(closes, period)[t - 1] >= 0.0
    ensures Rsi(closes, period)[t]
         == Some(100.0 * UpAverages(closes, period)[t - 1] / (UpAverages(closes, period)[t - 1] + Epsilon))
  {
    NonFallingDownAverageZero(closes, period);
    RsiAt(closes, period, t);
    RsiOfZeroDown(UpAverages(closes, period)[t - 1]);
  }
}
