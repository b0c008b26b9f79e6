/**
 * The bar-by-bar position state machine of `backtest_simple_strategy`
 * (streamlit_app/utils/strategies.py): the strategy configuration, the
 * positions and trades, the walk as a specification function, the loop
 * that computes it, and what every emitted trade is guaranteed to satisfy.
 */
module Signals {
  import opened Wrappers

  /** The `mode` key; any string other than the three known ones is accepted and trades nothing. */
  datatype Mode = MeanReversion | OverboughtReversal | TrendFollowRsi | Unrecognised(name: string)

  /** The mode a configuration string selects. */
  function ParseMode(s: string): (m: Mode)
    ensures m.Unrecognised? <==> s != "mean_reversion" && s != "overbought_reversal" && s != "trend_follow_rsi"
    ensures m.Unrecognised? ==> m.name == s
    ensures m == MeanReversion <==> s == "mean_reversion"
    ensures m == OverboughtReversal <==> s == "overbought_reversal"
    ensures m == TrendFollowRsi <==> s == "trend_follow_rsi"
  {
    if s == "mean_reversion" then MeanReversion
    else if s == "overbought_reversal" then OverboughtReversal
    else if s == "trend_follow_rsi" then TrendFollowRsi
    else Unrecognised(s)
  }

  /** A strategy configuration dictionary: every key may be missing. */
  datatype StrategyCfg = StrategyCfg(lower: Option<real>, upper: Option<real>, exitLevel: Option<real>, mode: Option<string>)

  /** The configuration after the defaults of the missing keys are filled in. */
  datatype Params = Params(lower: real, upper: real, exitLevel: real, mode: Mode)

  const DefaultLower: real := 30.0
  const DefaultUpper: real := 70.0
  const DefaultExitLevel: real := 50.0
  const DefaultMode: string := "mean_reversion"

  /** The fixed midline of the trend-following mode. */
  const Midline: real := 50.0

  /** `strategy_cfg.get(key, default)` for the four keys. */
  function Resolve(cfg: StrategyCfg): (p: Params)
    ensures cfg.lower.None? ==> p.lower == DefaultLower
    ensures cfg.lower.Some? ==> p.lower == cfg.lower.value
    ensures cfg.upper.None? ==> p.upper == DefaultUpper
    ensures cfg.upper.Some? ==> p.upper == cfg.upper.value
    ensures cfg.exitLevel.None? ==> p.exitLevel == DefaultExitLevel
    ensures cfg.exitLevel.Some? ==> p.exitLevel == cfg.exitLevel.value
    ensures cfg.mode.None? ==> p.mode == MeanReversion
    ensures cfg.mode.Some? ==> p.mode == ParseMode(cfg.mode.value)
  {
    Params(cfg.lower.GetOr(DefaultLower), cfg.upper.GetOr(DefaultUpper),
           cfg.exitLevel.GetOr(DefaultExitLevel), ParseMode(cfg.mode.GetOr(DefaultMode)))
  }

  /** An empty configuration is a mean-reversion strategy with levels 30 / 70 / 50. */
  lemma EmptyConfigDefaults()
    ensures Resolve(StrategyCfg(None, None, None, None)) == Params(30.0, 70.0, 50.0, MeanReversion)
  {
  }

  datatype Side = Long | Short

  /**
   * The walk's state: flat, or one open position with the bar it was entered on.
   * (The source keeps `position` and `entry_idx` in two variables that are always
   * both `None` or both set.)
   */
  datatype Position = Flat | Open(side: Side, entryIdx: nat)

  /** An emitted trade record `{entry_idx, exit_idx, side}`. */
  datatype Trade = Trade(entryIdx: nat, exitIdx: nat, side: Side)

  /** The position and the trades emitted so far. */
  datatype WalkState = WalkState(position: Position, trades: seq<Trade>)

  /** Python's `x < level` and `x > level` are false when `x` is NaN. */
  predicate Below(x: Option<real>, level: real) { x.Some? && x.value < level }

  predicate Above(x: Option<real>, level: real) { x.Some? && x.value > level }

  /** Closing the open position at bar i emits its trade and leaves the walk flat. */
  function Close(s: WalkState, i: nat): WalkState
    requires s.position.Open?
  {
    WalkState(Flat, s.trades + [Trade(s.position.entryIdx, i, s.position.side)])
  }

  /** The per-mode branch of the loop body at bar i with defined RSI r; `prev` is the RSI of bar i-1. */
  function ModeStep(p: Params, prev: Option<real>, r: real, i: nat, s: WalkState): WalkState
  {
    match p.mode
    case MeanReversion =>
      if s.position.Flat? then
        (if r < p.lower then WalkState(Open(Long, i), s.trades) else s)
      else if s.position.side == Long && r > p.exitLevel then Close(s, i)
      else s
    case OverboughtReversal =>
      if s.position.Flat? then
        (if r > p.upper then WalkState(Open(Short, i), s.trades) else s)
      else if s.position.side == Short && r < p.exitLevel then Close(s, i)
      else s
    case TrendFollowRsi =>
      if s.position.Flat? then
        (if Below(prev, Midline) && r > Midline then WalkState(Open(Long, i), s.trades)
         else if Above(prev, Midline) && r < Midline then WalkState(Open(Short, i), s.trades)
         else s)
      else if s.position.side == Long && r < Midline then Close(s, i)
      else if s.position.side == Short && r > Midline then Close(s, i)
      else s
    case Unrecognised(_) => s
  }

  /**
   * One iteration of the loop at bar i: an undefined RSI skips the bar entirely
   * (including the end-of-series check); otherwise the mode's branch runs and,
   * on the last bar, a still-open position is force-closed.
   */
  function StepBar(rsi: seq<Option<real>>, p: Params, i: nat, s: WalkState): WalkState
    requires 1 <= i < |rsi|
  {
    match rsi[i]
    case None => s
    case Some(r) =>
      var s' := ModeStep(p, rsi[i - 1], r, i, s);
      if i == |rsi| - 1 && s'.position.Open? then Close(s', i) else s'
  }

  /** The state after the loop has processed bars 1 .. k-1. */
  function WalkTo(rsi: seq<Option<real>>, p: Params, k: nat): WalkState
    requires k <= |rsi|
    decreases k
  {
    if k <= 1 then WalkState(Flat, []) else StepBar(rsi, p, k - 1, WalkTo(rsi, p, k - 1))
  }

  /** The trades the whole walk emits. */
  function Trades(rsi: seq<Option<real>>, p: Params): seq<Trade>
  {
    WalkTo(rsi, p, |rsi|).trades
  }

  // ---------------------------------------------------------------------------
  // The rule tables the walk is measured against

  /** The entry rule of the mode at bar j (checked only while flat). */
  predicate EntrySignal(p: Params, rsi: seq<Option<real>>, j: nat)
    requires 1 <= j < |rsi|
  {
    rsi[j].Some? &&
    match p.mode
    case MeanReversion => rsi[j].value < p.lower
    case OverboughtReversal => rsi[j].value > p.upper
    case TrendFollowRsi =>
      (Below(rsi[j - 1], Midline) && rsi[j].value > Midline)
      || (Above(rsi[j - 1], Midline) && rsi[j].value < Midline)
    case Unrecognised(_) => false
  }

  /** The side an entry at bar j opens. */
  function EntrySide(p: Params, rsi: seq<Option<real>>, j: nat): Side
    requires 1 <= j < |rsi|
  {
    match p.mode
    case OverboughtReversal => Short
    case TrendFollowRsi => if Below(rsi[j - 1], Midline) then Long else Short
    case _ => Long
  }

  /** The exit rule of the mode for an open position on `side` at a bar with RSI r. */
  predicate ExitSignal(p: Params, side: Side, r: real)
  {
    match p.mode
    case MeanReversion => side == Long && r > p.exitLevel
    case OverboughtReversal => side == Short && r < p.exitLevel
    case TrendFollowRsi => (side == Long && r < Midline) || (side == Short && r > Midline)
    case Unrecognised(_) => false
  }

  /** No bar strictly between lo and hi gives an entry signal. */
  predicate NoEntryBetween(p: Params, rsi: seq<Option<real>>, lo: nat, hi: nat)
    requires hi <= |rsi|
  {
    forall j :: lo < j < hi && 1 <= j ==> !EntrySignal(p, rsi, j)
  }

  /** No bar strictly between lo and hi gives an exit signal for `side`. */
  predicate NoExitBetween(p: Params, rsi: seq<Option<real>>, side: Side, lo: nat, hi: nat)
    requires hi <= |rsi|
  {
    forall j :: lo < j < hi && rsi[j].Some? ==> !ExitSignal(p, side, rsi[j].value)
  }

  /**
   * Trades come in index order and do not overlap: 1 <= entry <= exit <= n-1,
   * entry == exit only on the last bar, and each entry is after the previous exit.
   */
  predicate WellFormed(trades: seq<Trade>, n: nat)
  {
    && (forall k :: 0 <= k < |trades| ==> 1 <= trades[k].entryIdx <= trades[k].exitIdx < n)
    && (forall k :: 0 <= k < |trades| && trades[k].entryIdx == trades[k].exitIdx ==> trades[k].exitIdx == n - 1)
    && (forall k :: 0 < k < |trades| ==> trades[k - 1].exitIdx < trades[k].entryIdx)
  }

  /**
   * A trade is what the rules call for: its entry bar gives the entry signal for
   * its side, its exit bar is defined and gives the exit signal (or is the last
   * bar, the forced close), and no bar in between gave an exit signal.
   */
  predicate Justified(p: Params, rsi: seq<Option<real>>, t: Trade)
    requires 1 <= t.entryIdx <= t.exitIdx < |rsi|
  {
    && EntrySignal(p, rsi, t.entryIdx)
    && t.side == EntrySide(p, rsi, t.entryIdx)
    && rsi[t.exitIdx].Some?
    && ((t.entryIdx < t.exitIdx && ExitSignal(p, t.side, rsi[t.exitIdx].value)) || t.exitIdx == |rsi| - 1)
    && NoExitBetween(p, rsi, t.side, t.entryIdx, t.exitIdx)
  }

  /** The exit of the trade before trade m, or 0 for the first one. */
  function GapStart(trades: seq<Trade>, m: nat): nat
    requires m <= |trades|
  {
    if m == 0 then 0 else trades[m - 1].exitIdx
  }

  /** Every trade is justified and no entry signal was passed over while flat before it. */
  predicate Explained(p: Params, rsi: seq<Option<real>>, trades: seq<Trade>)
    requires WellFormed(trades, |rsi|)
  {
    forall k :: 0 <= k < |trades| ==>
      Justified(p, rsi, trades[k]) && NoEntryBetween(p, rsi, GapStart(trades, k), trades[k].entryIdx)
  }

  /** What holds of the walk's state after bars 1 .. k-1. */
  predicate StateSound(p: Params, rsi: seq<Option<real>>, k: nat, s: WalkState)
    requires 1 <= k <= |rsi|
  {
    var last := GapStart(s.trades, |s.trades|);
    && WellFormed(s.trades, |rsi|)
    && Explained(p, rsi, s.trades)
    && last < k
    && match s.position
       case Flat => NoEntryBetween(p, rsi, last, k)
       case Open(side, e) =>
         && last < e < k
         && 1 <= e
         && EntrySignal(p, rsi, e)
         && side == EntrySide(p, rsi, e)
         && NoEntryBetween(p, rsi, last, e)
         && NoExitBetween(p, rsi, side, e, k)
  }

  // ---------------------------------------------------------------------------
  // Proof that the walk keeps StateSound

  /** The per-mode branch is exactly the transition table given by EntrySignal and ExitSignal. */
  lemma ModeStepTable(p: Params, rsi: seq<Option<real>>, i: nat, s: WalkState)
    requires 1 <= i < |rsi| && rsi[i].Some?
    ensures s.position.Flat? && EntrySignal(p, rsi, i) ==>
      ModeStep(p, rsi[i - 1], rsi[i].value, i, s) == WalkState(Open(EntrySide(p, rsi, i), i), s.trades)
    ensures s.position.Flat? && !EntrySignal(p, rsi, i) ==>
      ModeStep(p, rsi[i - 1], rsi[i].value, i, s) == s
    ensures s.position.Open? && ExitSignal(p, s.position.side, rsi[i].value) ==>
      ModeStep(p, rsi[i - 1], rsi[i].value, i, s) == Close(s, i)
    ensures s.position.Open? && !ExitSignal(p, s.position.side, rsi[i].value) ==>
      ModeStep(p, rsi[i - 1], rsi[i].value, i, s) == s
  {
  }

  /** Appending a trade whose entry is after the last exit keeps the trades well formed. */
  lemma AppendWellFormed(trades: seq<Trade>, t: Trade, n: nat)
    requires WellFormed(trades, n)
    requires GapStart(trades, |trades|) < t.entryIdx && 1 <= t.entryIdx <= t.exitIdx < n
    requires t.entryIdx == t.exitIdx ==> t.exitIdx == n - 1
    ensures WellFormed(trades + [t], n)
    ensures GapStart(trades + [t], |trades| + 1) == t.exitIdx
  {
    var ts := trades + [t];
    assert forall k :: 0 <= k < |trades| ==> ts[k] == trades[k];
  }

  /** Appending a justified trade preceded by a quiet gap keeps the trades explained. */
  lemma AppendExplained(p: Params, rsi: seq<Option<real>>, trades: seq<Trade>, t: Trade)
    requires WellFormed(trades, |rsi|) && WellFormed(trades + [t], |rsi|)
    requires Explained(p, rsi, trades)
    requires 1 <= t.entryIdx <= t.exitIdx < |rsi|
    requires Justified(p, rsi, t)
    requires NoEntryBetween(p, rsi, GapStart(trades, |trades|), t.entryIdx)
    ensures Explained(p, rsi, trades + [t])
  {
    var ts := trades + [t];
    forall k | 0 <= k < |ts|
      ensures Justified(p, rsi, ts[k]) && NoEntryBetween(p, rsi, GapStart(ts, k), ts[k].entryIdx)
    {
      ExplainedAt(p, rsi, trades, t, k);
    }
  }

  /**
   * Trade k of the extended list is explained: an earlier trade and the gap before it are
   * unchanged, and the new trade brings its own justification and quiet gap.
   */
  lemma ExplainedAt(p: Params, rsi: seq<Option<real>>, trades: seq<Trade>, t: Trade, k: nat)
    requires WellFormed(trades, |rsi|) && WellFormed(trades + [t], |rsi|)
    requires Explained(p, rsi, trades)
    requires 1 <= t.entryIdx <= t.exitIdx < |rsi|
    requires Justified(p, rsi, t)
    requires NoEntryBetween(p, rsi, GapStart(trades, |trades|), t.entryIdx)
    requires k <= |trades|
    ensures Justified(p, rsi, (trades + [t])[k])
    ensures NoEntryBetween(p, rsi, GapStart(trades + [t], k), (trades + [t])[k].entryIdx)
  {
    var ts := trades + [t];
    if k < |trades| {
      assert ts[k] == trades[k] && GapStart(ts, k) == GapStart(trades, k);
    } else {
      assert ts[k] == t && GapStart(ts, k) == GapStart(trades, |trades|);
    }
  }

  /** A bar without an entry signal extends a quiet stretch by one bar. */
  lemma ExtendNoEntry(p: Params, rsi: seq<Option<real>>, lo: nat, hi: nat)
    requires hi < |rsi| && NoEntryBetween(p, rsi, lo, hi)
    requires 1 <= hi ==> !EntrySignal(p, rsi, hi)
    ensures NoEntryBetween(p, rsi, lo, hi + 1)
  {
  }

  /** A bar without an exit signal extends an exit-free stretch by one bar. */
  lemma ExtendNoExit(p: Params, rsi: seq<Option<real>>, side: Side, lo: nat, hi: nat)
    requires hi < |rsi| && NoExitBetween(p, rsi, side, lo, hi)
    requires rsi[hi].Some? ==> !ExitSignal(p, side, rsi[hi].value)
    ensures NoExitBetween(p, rsi, side, lo, hi + 1)
  {
  }

  /** Closing an open position (by its exit signal or by the forced close) keeps the state sound. */
  lemma CloseSound(p: Params, rsi: seq<Option<real>>, i: nat, s: WalkState)
    requires 1 <= i < |rsi| && rsi[i].Some?
    requires s.position.Open? && s.position.entryIdx <= i
    requires s.position.entryIdx == i ==> i == |rsi| - 1
    requires (ExitSignal(p, s.position.side, rsi[i].value) && s.position.entryIdx < i) || i == |rsi| - 1
    requires WellFormed(s.trades, |rsi|) && Explained(p, rsi, s.trades)
    requires GapStart(s.trades, |s.trades|) < s.position.entryIdx && 1 <= s.position.entryIdx
    requires EntrySignal(p, rsi, s.position.entryIdx)
    requires s.position.side == EntrySide(p, rsi, s.position.entryIdx)
    requires NoEntryBetween(p, rsi, GapStart(s.trades, |s.trades|), s.position.entryIdx)
    requires NoExitBetween(p, rsi, s.position.side, s.position.entryIdx, i)
    ensures StateSound(p, rsi, i + 1, Close(s, i))
  {
    var t := Trade(s.position.entryIdx, i, s.position.side);
    assert Justified(p, rsi, t);
    AppendWellFormed(s.trades, t, |rsi|);
    AppendExplained(p, rsi, s.trades, t);
  }

  /** A bar that leaves the state unchanged (undefined RSI, or no signal) keeps it sound one bar further. */
  lemma QuietBarSound(p: Params, rsi: seq<Option<real>>, i: nat, s: WalkState)
    requires 1 <= i < |rsi|
    requires StateSound(p, rsi, i, s)
    requires s.position.Flat? ==> !EntrySignal(p, rsi, i)
    requires s.position.Open? && rsi[i].Some? ==> !ExitSignal(p, s.position.side, rsi[i].value)
    ensures StateSound(p, rsi, i + 1, s)
  {
    var last := GapStart(s.trades, |s.trades|);
    match s.position
    case Flat =>
      ExtendNoEntry(p, rsi, last, i);
    case Open(side, e) =>
      ExtendNoExit(p, rsi, side, e, i);
  }

  /** The mode's branch alone keeps the state sound one bar further. */
  lemma ModeStepSound(p: Params, rsi: seq<Option<real>>, i: nat, s: WalkState)
    requires 1 <= i < |rsi| && rsi[i].Some?
    requires StateSound(p, rsi, i, s)
    ensures StateSound(p, rsi, i + 1, ModeStep(p, rsi[i - 1], rsi[i].value, i, s))
    ensures ModeStep(p, rsi[i - 1], rsi[i].value, i, s).position.Open? ==>
      ModeStep(p, rsi[i - 1], rsi[i].value, i, s).position.entryIdx <= i
  {
    var r := rsi[i].value;
    ModeStepTable(p, rsi, i, s);
    if s.position.Flat? && EntrySignal(p, rsi, i) {
      var s' := WalkState(Open(EntrySide(p, rsi, i), i), s.trades);
      assert StateSound(p, rsi, i + 1, s');
    } else if s.position.Open? && ExitSignal(p, s.position.side, r) {
      CloseSound(p, rsi, i, s);
    } else {
      QuietBarSound(p, rsi, i, s);
    }
  }

  /** One loop iteration keeps the state sound. */
  lemma StepSound(p: Params, rsi: seq<Option<real>>, i: nat, s: WalkState)
    requires 1 <= i < |rsi|
    requires StateSound(p, rsi, i, s)
    ensures StateSound(p, rsi, i + 1, StepBar(rsi, p, i, s))
  {
    if rsi[i].Some? {
      ModeStepSound(p, rsi, i, s);
      var s' := ModeStep(p, rsi[i - 1], rsi[i].value, i, s);
      if i == |rsi| - 1 && s'.position.Open? {
        CloseSound(p, rsi, i, s');
      }
    } else {
      QuietBarSound(p, rsi, i, s);
    }
  }

  /** After any number of bars the walk's state is sound. */
  lemma {:induction false} WalkSound(rsi: seq<Option<real>>, p: Params, k: nat)
    requires 1 <= k <= |rsi|
    ensures StateSound(p, rsi, k, WalkTo(rsi, p, k))
    decreases k
  {
    if k > 1 {
      var prev := WalkTo(rsi, p, k - 1);
      WalkSound(rsi, p, k - 1);
      StepSound(p, rsi, k - 1, prev);
      assert WalkTo(rsi, p, k) == StepBar(rsi, p, k - 1, prev);
    }
  }

  // ---------------------------------------------------------------------------
  // What the emitted trades satisfy

  /**
   * Every run's trades are in index order, never overlap, lie within [1, n-1],
   * each is justified by the mode's rules, and no entry signal was skipped while flat.
   */
  lemma TradesSound(rsi: seq<Option<real>>, p: Params)
    ensures WellFormed(Trades(rsi, p), |rsi|)
    ensures Explained(p, rsi, Trades(rsi, p))
  {
    if |rsi| > 0 {
      WalkSound(rsi, p, |rsi|);
    }
  }

  /** When the last bar's RSI is defined, the walk ends flat: the forced close fired if needed. */
  lemma EndsFlat(rsi: seq<Option<real>>, p: Params)
    requires |rsi| >= 2 && rsi[|rsi| - 1].Some?
    ensures WalkTo(rsi, p, |rsi|).position == Flat
  {
  }

  /**
   * When the last bar's RSI is defined, no entry signal after the last trade's exit
   * was passed over: the walk is complete up to the end of the series.
   */
  lemma NoSignalAfterLastTrade(rsi: seq<Option<real>>, p: Params)
    requires |rsi| >= 2 && rsi[|rsi| - 1].Some?
    ensures WellFormed(Trades(rsi, p), |rsi|)
    ensures NoEntryBetween(p, rsi, GapStart(Trades(rsi, p), |Trades(rsi, p)|), |rsi|)
  {
    WalkSound(rsi, p, |rsi|);
  }

  /** When the last bar's RSI is undefined the last bar is skipped, so an open position is never recorded. */
  lemma LastBarUndefinedSkipsClose(rsi: seq<Option<real>>, p: Params)
    requires |rsi| >= 2 && rsi[|rsi| - 1].None?
    ensures WalkTo(rsi, p, |rsi|) == WalkTo(rsi, p, |rsi| - 1)
  {
  }

  /** An instance: a long opened on bar 1 is still open after a last bar with undefined RSI, and no trade is emitted. */
  lemma OpenPositionLostExample()
    ensures WalkTo([None, Some(20.0), None], Resolve(StrategyCfg(None, None, None, None)), 3)
         == WalkState(Open(Long, 1), [])
    ensures Trades([None, Some(20.0), None], Resolve(StrategyCfg(None, None, None, None))) == []
  {
  }

  /** Under an unrecognised mode the walk never leaves its initial state. */
  lemma {:induction false} UnrecognisedModeStaysFlat(rsi: seq<Option<real>>, p: Params, k: nat)
    requires p.mode.Unrecognised? && k <= |rsi|
    ensures WalkTo(rsi, p, k) == WalkState(Flat, [])
    decreases k
  {
    if k > 1 {
      UnrecognisedModeStaysFlat(rsi, p, k - 1);
    }
  }

  /** An unrecognised mode string produces no trades and no error. */
  lemma UnrecognisedModeNoTrades(rsi: seq<Option<real>>, p: Params)
    requires p.mode.Unrecognised?
    ensures Trades(rsi, p) == []
  {
    UnrecognisedModeStaysFlat(rsi, p, |rsi|);
  }

  /** Mean reversion only goes long, overbought reversal only goes short. */
  lemma SidesFollowMode(rsi: seq<Option<real>>, p: Params)
    ensures p.mode == MeanReversion ==> forall t :: t in Trades(rsi, p) ==> t.side == Long
    ensures p.mode == OverboughtReversal ==> forall t :: t in Trades(rsi, p) ==> t.side == Short
  {
    TradesSound(rsi, p);
    var ts := Trades(rsi, p);
    forall t | t in ts
      ensures p.mode == MeanReversion ==> t.side == Long
      ensures p.mode == OverboughtReversal ==> t.side == Short
    {
      var k :| 0 <= k < |ts| && ts[k] == t;
      assert Justified(p, rsi, ts[k]);
    }
  }

  /**
   * In the trend-following mode an RSI of exactly 50 never triggers: every entry
   * bar and every exit bar that is not the forced close has RSI different from 50.
   */
  lemma TrendFollowStrictMidline(rsi: seq<Option<real>>, p: Params)
    requires p.mode == TrendFollowRsi
    ensures forall t :: t in Trades(rsi, p) ==>
      t.entryIdx < |rsi| && rsi[t.entryIdx].Some? && rsi[t.entryIdx].value != Midline
    ensures forall t :: t in Trades(rsi, p) && t.exitIdx < |rsi| - 1 ==>
      rsi[t.exitIdx].Some? && rsi[t.exitIdx].value != Midline
  {
    TradesSound(rsi, p);
    var ts := Trades(rsi, p);
    forall t | t in ts
      ensures t.entryIdx < |rsi| && rsi[t.entryIdx].Some? && rsi[t.entryIdx].value != Midline
      ensures t.exitIdx < |rsi| - 1 ==> rsi[t.exitIdx].Some? && rsi[t.exitIdx].value != Midline
    {
      var k :| 0 <= k < |ts| && ts[k] == t;
      assert Justified(p, rsi, ts[k]);
    }
  }

  // ---------------------------------------------------------------------------
  // The loop itself

  /**
   * `for i in range(1, len(df))`, mutating `position` and appending to `trades`.
   * The result is the specification walk, so everything proved about Trades holds of it.
   */
  method RunStrategy(rsi: seq<Option<real>>, p: Params) returns (trades: seq<Trade>)
    ensures trades == Trades(rsi, p)
    ensures WellFormed(trades, |rsi|) && Explained(p, rsi, trades)
  {
    trades := [];
    var position := Flat;
    var i := 1;
    while i < |rsi|
      invariant 1 <= i && (i <= |rsi| || |rsi| == 0)
      invariant WalkTo(rsi, p, if |rsi| == 0 then 0 else i) == WalkState(position, trades)
    {
      ghost var before := WalkState(position, trades);
      var cell := rsi[i];
      if cell.Some? {
        var r := cell.value;
        match p.mode {
          case MeanReversion =>
            if position.Flat? {
              if r < p.lower {
                position := Open(Long, i);
              }
            } else if position.side == Long && r > p.exitLevel {
              trades := trades + [Trade(position.entryIdx, i, Long)];
              position := Flat;
            }
          case OverboughtReversal =>
            if position.Flat? {
              if r > p.upper {
                position := Open(Short, i);
              }
            } else if position.side == Short && r < p.exitLevel {
              trades := trades + [Trade(position.entryIdx, i, Short)];
              position := Flat;
            }
          case TrendFollowRsi =>
            var prev := rsi[i - 1];
            if position.Flat? {
              if Below(prev, Midline) && r > Midline {
                position := Open(Long, i);
              } else if Above(prev, Midline) && r < Midline {
                position := Open(Short, i);
              }
            } else {
              if position.side == Long && r < Midline {
                trades := trades + [Trade(position.entryIdx, i, Long)];
                position := Flat;
              } else if position.side == Short && r > Midline {
                trades := trades + [Trade(position.entryIdx, i, Short)];
                position := Flat;
              }
            }
          case Unrecognised(_) =>
        }
        assert WalkState(position, trades) == ModeStep(p, rsi[i - 1], r, i, before);
        if i == |rsi| - 1 && position.Open? {
          trades := trades + [Trade(position.entryIdx, i, position.side)];
          position := Flat;
        }
      }
      assert WalkState(position, trades) == StepBar(rsi, p, i, before);
      i := i + 1;
    }
    TradesSound(rsi, p);
  }
}
