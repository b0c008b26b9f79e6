/** One row of a cleaned OHLCV series: every column is defined. */
module Bars {

  /** A bar; the timestamp is an instant written as a number. */
  datatype Bar = Bar(timestamp: real, open: real, high: real, low: real, close: real, volume: real)

  /** The `close` column of a series. */
  function Closes(bars: seq<Bar>): (c: seq<real>)
    ensures |c| == |bars|
    ensures forall i :: 0 <= i < |bars| ==> c[i] == bars[i].close
  {
    seq(|bars|, i requires 0 <= i < |bars| => bars[i].close)
  }

  /** Every closing price is strictly positive. */
  predicate PositivePrices(bars: seq<Bar>) {
    forall i :: 0 <= i < |bars| ==> bars[i].close > 0.0
  }
}
