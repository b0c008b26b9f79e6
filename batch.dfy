/**
 * The per-(file, RSI period) preparation and the parameter sweep of the batch run
 * (backtester/batch_backtest.py): drop incomplete rows, add the RSI column, drop the rows
 * whose RSI is undefined, and skip series shorter than 20 bars.
 */
module Batch {
  import opened Wrappers
  import opened Bars
  import opened Indicator
  import opened Signals
  import opened Loader

  /** The fewest bars a prepared series may have. */
  const MinBars: nat := 20

  const RsiPeriods: seq<nat> := [7, 14, 21]
  const LowerThresholds: seq<real> := [30.0, 25.0, 20.0, 15.0]
  const UpperThresholds: seq<real> := [70.0, 75.0, 80.0, 85.0]
  const SweepExitLevel: real := 50.0

  /** Every column of the row is defined. */
  predicate Complete(r: RawBar)
  {
    r.timestamp.Some? && r.open.Some? && r.high.Some? && r.low.Some? && r.close.Some? && r.volume.Some?
  }

  function ToBar(r: RawBar): Bar
    requires Complete(r)
  {
    Bar(r.timestamp.value, r.open.value, r.high.value, r.low.value, r.close.value, r.volume.value)
  }

  /** `dropna()`: the complete rows, in order. */
  function DropIncomplete(rows: seq<RawBar>): (bars: seq<Bar>)
    ensures |bars| <= |rows|
  {
    if |rows| == 0 then []
    else if Complete(rows[0]) then [ToBar(rows[0])] + DropIncomplete(rows[1..])
    else DropIncomplete(rows[1..])
  }

  /**
   * `dropna()` keeps exactly the complete rows in order: appending a row appends its bar
   * when it is complete and nothing otherwise.
   */
  lemma {:induction false} DropIncompleteAppend(rows: seq<RawBar>, r: RawBar)
    ensures DropIncomplete(rows + [r]) == DropIncomplete(rows) + (if Complete(r) then [ToBar(r)] else [])
  {
    if |rows| == 0 {
      assert rows + [r] == [r];
      assert [r][1..] == [];
    } else {
      assert (rows + [r])[0] == rows[0];
      assert (rows + [r])[1..] == rows[1..] + [r];
      DropIncompleteAppend(rows[1..], r);
    }
  }

  /** The number of complete rows. */
  function CountComplete(rows: seq<RawBar>): nat
  {
    if |rows| == 0 then 0 else (if Complete(rows[0]) then 1 else 0) + CountComplete(rows[1..])
  }

  /** `dropna()` keeps one bar per complete row. */
  lemma {:induction false} DropIncompleteCount(rows: seq<RawBar>)
    ensures |DropIncomplete(rows)| == CountComplete(rows)
  {
    if |rows| > 0 {
      DropIncompleteCount(rows[1..]);
    }
  }

  /** A table with no undefined cell loses no row. */
  lemma {:induction false} DropIncompleteKeepsComplete(rows: seq<RawBar>)
    requires forall k :: 0 <= k < |rows| ==> Complete(rows[k])
    ensures |DropIncomplete(rows)| == |rows|
    ensures forall k :: 0 <= k < |rows| ==> DropIncomplete(rows)[k] == ToBar(rows[k])
  {
    if |rows| > 0 {
      DropIncompleteKeepsComplete(rows[1..]);
    }
  }

  /** Every kept bar is a complete input row. */
  lemma {:induction false} DropIncompleteSound(rows: seq<RawBar>)
    ensures forall b :: b in DropIncomplete(rows) ==> exists r :: r in rows && Complete(r) && ToBar(r) == b
  {
    if |rows| > 0 {
      DropIncompleteSound(rows[1..]);
      forall b | b in DropIncomplete(rows) ensures exists r :: r in rows && Complete(r) && ToBar(r) == b {
        if Complete(rows[0]) && b == ToBar(rows[0]) {
          assert rows[0] in rows;
        } else {
          assert b in DropIncomplete(rows[1..]);
          var r :| r in rows[1..] && Complete(r) && ToBar(r) == b;
          assert r in rows;
        }
      }
    }
  }

  /** A series ready for the backtest: the bars and their RSI values. */
  datatype Prepared = Prepared(bars: seq<Bar>, rsi: seq<Option<real>>)

  /** The second `dropna()`: drop every bar whose RSI is undefined. */
  function KeepDefined(bars: seq<Bar>, rsi: seq<Option<real>>): (p: Prepared)
    requires |bars| == |rsi|
    ensures |p.bars| == |p.rsi| <= |bars|
    ensures forall k :: 0 <= k < |p.rsi| ==> p.rsi[k].Some?
  {
    if |bars| == 0 then Prepared([], [])
    else
      var rest := KeepDefined(bars[1..], rsi[1..]);
      if rsi[0].Some? then Prepared([bars[0]] + rest.bars, [rsi[0]] + rest.rsi) else rest
  }

  /** Where every RSI value is defined nothing is dropped. */
  lemma {:induction false} KeepDefinedAll(bars: seq<Bar>, rsi: seq<Option<real>>)
    requires |bars| == |rsi|
    requires forall k :: 0 <= k < |rsi| ==> rsi[k].Some?
    ensures KeepDefined(bars, rsi) == Prepared(bars, rsi)
  {
    if |bars| > 0 {
      KeepDefinedAll(bars[1..], rsi[1..]);
      assert bars == [bars[0]] + bars[1..];
      assert rsi == [rsi[0]] + rsi[1..];
    }
  }

  /**
   * One RSI period on a loaded table: `None` when fewer than 20 bars remain, in which case
   * the period yields no summary rows. Otherwise the first complete bar is gone (its RSI is
   * undefined), every remaining RSI value is defined, and there are at least 20 bars.
   */
  function PrepareForPeriod(rows: seq<RawBar>, period: nat): (r: Option<Prepared>)
    requires period > 0
    ensures r.None? <==> |DropIncomplete(rows)| < MinBars + 1
    ensures r.Some? ==> r.value.bars == DropIncomplete(rows)[1..]
    ensures r.Some? ==> r.value.rsi == Rsi(Closes(DropIncomplete(rows)), period)[1..]
    ensures r.Some? ==> |r.value.bars| >= MinBars && |r.value.rsi| == |r.value.bars|
    ensures r.Some? ==> forall k :: 0 <= k < |r.value.rsi| ==> r.value.rsi[k].Some?
  {
    var clean := DropIncomplete(rows);
    var rsi := Rsi(Closes(clean), period);
    var kept := KeepDefined(clean, rsi);
    RsiDropsFirstBar(clean, period);
    if |kept.bars| < MinBars then None else Some(kept)
  }

  /** Dropping the undefined RSI values removes exactly the first bar. */
  lemma RsiDropsFirstBar(bars: seq<Bar>, period: nat)
    requires period > 0
    ensures |bars| == 0 ==> KeepDefined(bars, Rsi(Closes(bars), period)) == Prepared([], [])
    ensures |bars| > 0 ==> KeepDefined(bars, Rsi(Closes(bars), period))
                           == Prepared(bars[1..], Rsi(Closes(bars), period)[1..])
  {
    var rsi := Rsi(Closes(bars), period);
    if |bars| > 0 {
      KeepDefinedAll(bars[1..], rsi[1..]);
    }
  }

  /** The configurations swept for each series and period. */
  function SweepConfigs(): (cfgs: seq<StrategyCfg>)
    ensures |cfgs| == |LowerThresholds| + |UpperThresholds| + 1 == 9
    ensures forall k :: 0 <= k < |LowerThresholds| ==>
              cfgs[k] == StrategyCfg(Some(LowerThresholds[k]), None, Some(SweepExitLevel), Some("mean_reversion"))
    ensures forall k :: 0 <= k < |UpperThresholds| ==>
              cfgs[|LowerThresholds| + k]
              == StrategyCfg(None, Some(UpperThresholds[k]), Some(SweepExitLevel), Some("overbought_reversal"))
    ensures cfgs[8] == StrategyCfg(None, None, None, Some("trend_follow_rsi"))
  {
    seq(|LowerThresholds|, k requires 0 <= k < |LowerThresholds| =>
      StrategyCfg(Some(LowerThresholds[k]), None, Some(SweepExitLevel), Some("mean_reversion")))
    + seq(|UpperThresholds|, k requires 0 <= k < |UpperThresholds| =>
      StrategyCfg(None, Some(UpperThresholds[k]), Some(SweepExitLevel), Some("overbought_reversal")))
    + [StrategyCfg(None, None, None, Some("trend_follow_rsi"))]
  }

  /**
   * Every swept configuration names a recognised mode and exits at 50; mean reversion keeps
   * the default upper bound and overbought reversal the default lower bound.
   */
  lemma SweepConfigsResolve()
    ensures forall c :: c in SweepConfigs() ==> !Resolve(c).mode.Unrecognised?
    ensures forall c :: c in SweepConfigs() ==> Resolve(c).exitLevel == 50.0
    ensures forall c :: c in SweepConfigs() && Resolve(c).mode == MeanReversion ==> Resolve(c).upper == 70.0
    ensures forall c :: c in SweepConfigs() && Resolve(c).mode == OverboughtReversal ==> Resolve(c).lower == 30.0
  {
    var cfgs := SweepConfigs();
    forall c | c in cfgs
      ensures !Resolve(c).mode.Unrecognised? && Resolve(c).exitLevel == 50.0
      ensures Resolve(c).mode == MeanReversion ==> Resolve(c).upper == 70.0
      ensures Resolve(c).mode == OverboughtReversal ==> Resolve(c).lower == 30.0
    {
      var k :| 0 <= k < |cfgs| && cfgs[k] == c;
      if k < 4 {
        assert c.mode == Some("mean_reversion") && c.upper.None? && c.exitLevel == Some(50.0);
      } else if k < 8 {
        assert c.mode == Some("overbought_reversal") && c.lower.None? && c.exitLevel == Some(50.0);
      } else {
        assert c == StrategyCfg(None, None, None, Some("trend_follow_rsi"));
      }
    }
  }

  /**
   * The RSI period changes only the RSI values: for every swept period the series is
   * skipped, or kept with the same bars, alike.
   */
  lemma PeriodIndependentBars(rows: seq<RawBar>)
    ensures forall k :: 0 <= k < |RsiPeriods| ==> RsiPeriods[k] > 0
    ensures forall k :: 0 <= k < |RsiPeriods| ==>
              PrepareForPeriod(rows, RsiPeriods[k]).None? == PrepareForPeriod(rows, RsiPeriods[0]).None?
    ensures forall k :: 0 <= k < |RsiPeriods| && PrepareForPeriod(rows, RsiPeriods[k]).Some? ==>
              PrepareForPeriod(rows, RsiPeriods[k]).value.bars == PrepareForPeriod(rows, RsiPeriods[0]).value.bars
  {
    var p0 := RsiPeriods[0];
    assert p0 == 7;
    forall k | 0 <= k < |RsiPeriods|
      ensures RsiPeriods[k] > 0
      ensures PrepareForPeriod(rows, RsiPeriods[k]).None? == PrepareForPeriod(rows, p0).None?
      ensures PrepareForPeriod(rows, RsiPeriods[k]).Some? ==>
                PrepareForPeriod(rows, RsiPeriods[k]).value.bars == PrepareForPeriod(rows, p0).value.bars
    {
      assert RsiPeriods[k] in {7, 14, 21};
      SamePreparedBars(rows, RsiPeriods[k], p0);
    }
  }

  /** Two positive periods skip the same series and keep the same bars. */
  lemma SamePreparedBars(rows: seq<RawBar>, p1: nat, p2: nat)
    requires p1 > 0 && p2 > 0
    ensures PrepareForPeriod(rows, p1).None? == PrepareForPeriod(rows, p2).None?
    ensures PrepareForPeriod(rows, p1).Some? ==>
              PrepareForPeriod(rows, p1).value.bars == PrepareForPeriod(rows, p2).value.bars
  {
    var a := PrepareForPeriod(rows, p1);
    var b := PrepareForPeriod(rows, p2);
    assert a.None? <==> |DropIncomplete(rows)| < MinBars + 1;
    assert b.None? <==> |DropIncomplete(rows)| < MinBars + 1;
  }
}
