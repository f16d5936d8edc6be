/**
 * The back-test of a trade plan over the per-second bars after listing:
 * enter at the first bar's open, follow the running high and low, and
 * exit at the first bar whose close reaches the trailing level (tested
 * first) or whose low reaches the stop level, else at the last close.
 */
module Analytics {
  import opened Common
  import opened TradePlans

  datatype Bar = Bar(openTime: int, open: real, high: real, low: real, close: real)

  datatype TradeAnalysis = TradeAnalysis(
    tradePlanId: string, entryPrice: real, exitPrice: real, highestPrice: real, lowestPrice: real,
    pnlPercent: real, dataPoints: string, windowSeconds: int)

  /** Why the walk ended: a trailing exit or a stop exit at a bar index, or the end of the bars. */
  datatype ExitCause = TrailingExit(at: nat) | StopExit(at: nat) | WindowEnd

  /** The state after the walk: exit price, running high, running low and the cause. */
  datatype Walked = Walked(exit: real, highest: real, lowest: real, cause: ExitCause)

  function Max(a: real, b: real): real { if b > a then b else a }

  function Min(a: real, b: real): real { if b < a then b else a }

  /** `x or fallback` for a plan percentage: 0 falls back to the settings value. */
  function OrSetting(x: real, fallback: real): real
  {
    if x != 0.0 then x else fallback
  }

  /** A price level: `price * threshold`. */
  function Level(price: real, threshold: real): real
  {
    price * threshold
  }

  /** The walk from bar `i`, with thresholds `tt` = 1 - trailing and `st` = 1 - stop. */
  function Walk(bars: seq<Bar>, i: nat, entry: real, highest: real, lowest: real, exit: real, tt: real, st: real): Walked
    decreases |bars| - i
  {
    if i >= |bars| then Walked(exit, highest, lowest, WindowEnd)
    else
      var h := Max(highest, bars[i].high);
      var l := Min(lowest, bars[i].low);
      if bars[i].close <= Level(h, tt) then Walked(Level(h, tt), h, l, TrailingExit(i))
      else if bars[i].low <= Level(entry, st) then Walked(Level(entry, st), h, l, StopExit(i))
      else Walk(bars, i + 1, entry, h, l, bars[i].close, tt, st)
  }

  /** The bars the walk looked at: all of them, or up to and including the exit bar. */
  function Seen(w: Walked, n: nat): nat
  {
    match w.cause
    case TrailingExit(j) => j + 1
    case StopExit(j) => j + 1
    case WindowEnd => n
  }

  /**
   * The walk from `i` ends at a bar at or after `i` or at the end; the
   * running high bounds the start high and every high seen, and the
   * running low bounds the start low and every low seen.
   */
  lemma {:induction false} WalkBounds(bars: seq<Bar>, i: nat, entry: real, highest: real, lowest: real, exit: real, tt: real, st: real)
    requires i <= |bars|
    ensures var w := Walk(bars, i, entry, highest, lowest, exit, tt, st);
      && i <= Seen(w, |bars|) <= |bars|
      && (w.cause.TrailingExit? || w.cause.StopExit? ==> i <= w.cause.at < |bars|)
      && w.highest >= highest && w.lowest <= lowest
      && (forall j :: i <= j < Seen(w, |bars|) ==> bars[j].high <= w.highest && bars[j].low >= w.lowest)
    decreases |bars| - i
  {
    if i < |bars| {
      var h := Max(highest, bars[i].high);
      var l := Min(lowest, bars[i].low);
      if !(bars[i].close <= Level(h, tt)) && !(bars[i].low <= Level(entry, st)) {
        WalkBounds(bars, i + 1, entry, h, l, bars[i].close, tt, st);
      }
    }
  }

  /**
   * A trailing exit is priced at high*tt with that bar's close at or below
   * it; a stop exit at entry*st with the bar's low at or below it and its
   * close above the trailing level; otherwise the exit is the last close.
   */
  lemma {:induction false} WalkExit(bars: seq<Bar>, i: nat, entry: real, highest: real, lowest: real, exit: real, tt: real, st: real)
    requires i <= |bars|
    ensures var w := Walk(bars, i, entry, highest, lowest, exit, tt, st);
      && (w.cause.TrailingExit? ==> w.cause.at < |bars| && w.exit == Level(w.highest, tt) && bars[w.cause.at].close <= w.exit)
      && (w.cause.StopExit? ==>
            w.cause.at < |bars| && w.exit == Level(entry, st) && bars[w.cause.at].low <= w.exit && bars[w.cause.at].close > Level(w.highest, tt))
      && (w.cause.WindowEnd? ==> w.exit == (if i < |bars| then bars[|bars| - 1].close else exit))
    decreases |bars| - i
  {
    if i < |bars| {
      var h := Max(highest, bars[i].high);
      var l := Min(lowest, bars[i].low);
      if !(bars[i].close <= Level(h, tt)) && !(bars[i].low <= Level(entry, st)) {
        WalkExit(bars, i + 1, entry, h, l, bars[i].close, tt, st);
      }
    }
  }

  /** The running high after bar `j`, starting from `highest` at bar `i`. */
  function HighThrough(bars: seq<Bar>, i: nat, j: nat, highest: real): real
    requires i <= j < |bars|
    decreases j - i
  {
    var h := Max(highest, bars[i].high);
    if i == j then h else HighThrough(bars, i + 1, j, h)
  }

  /** Bar `j` triggers an exit under running high `h`: its close at the trailing level or its low at the stop. */
  predicate Triggers(bars: seq<Bar>, j: nat, h: real, entry: real, tt: real, st: real)
    requires j < |bars|
  {
    bars[j].close <= Level(h, tt) || bars[j].low <= Level(entry, st)
  }

  /** The bar the walk stopped at, or the end of the bars when nothing triggered. */
  function StopBar(w: Walked, n: nat): nat
  {
    match w.cause
    case TrailingExit(j) => j
    case StopExit(j) => j
    case WindowEnd => n
  }

  /**
   * The walk exits at the first bar that triggers under the running high:
   * no bar before the exit bar triggers, and the exit bar does.
   */
  lemma {:induction false} WalkFirstTrigger(bars: seq<Bar>, i: nat, entry: real, highest: real, lowest: real, exit: real, tt: real, st: real)
    requires i <= |bars|
    ensures var w := Walk(bars, i, entry, highest, lowest, exit, tt, st);
      && i <= StopBar(w, |bars|) <= |bars|
      && (forall j :: i <= j < StopBar(w, |bars|) ==> !Triggers(bars, j, HighThrough(bars, i, j, highest), entry, tt, st))
      && (StopBar(w, |bars|) < |bars| ==>
            Triggers(bars, StopBar(w, |bars|), HighThrough(bars, i, StopBar(w, |bars|), highest), entry, tt, st))
    decreases |bars| - i
  {
    if i < |bars| {
      var h := Max(highest, bars[i].high);
      var l := Min(lowest, bars[i].low);
      assert HighThrough(bars, i, i, highest) == h;
      if !(bars[i].close <= Level(h, tt)) && !(bars[i].low <= Level(entry, st)) {
        WalkFirstTrigger(bars, i + 1, entry, h, l, bars[i].close, tt, st);
        var w := Walk(bars, i + 1, entry, h, l, bars[i].close, tt, st);
        forall j | i + 1 <= j < |bars|
          ensures HighThrough(bars, i, j, highest) == HighThrough(bars, i + 1, j, h)
        {
        }
      }
    }
  }

  /** `compute_plan` on values: None where the PnL divides by a zero entry price. */
  function Backtest(planId: string, planTrailing: real, planStop: real, bars: seq<Bar>,
                    settingsTrailing: real, settingsStop: real, windowSeconds: int): Result<TradeAnalysis>
    requires |bars| > 0
  {
    var entry := bars[0].open;
    var tt := 1.0 - OrSetting(planTrailing, settingsTrailing);
    var st := 1.0 - OrSetting(planStop, settingsStop);
    var w := Walk(bars, 0, entry, entry, entry, entry, tt, st);
    if entry == 0.0 then Err("decimal division by zero")
    else Ok(TradeAnalysis(planId, entry, w.exit, w.highest, w.lowest, (w.exit - entry) / entry, NatDigits(|bars|), windowSeconds))
  }

  /** The walk a back-test performs. */
  function BacktestWalk(planTrailing: real, planStop: real, bars: seq<Bar>, settingsTrailing: real, settingsStop: real): Walked
    requires |bars| > 0
  {
    var entry := bars[0].open;
    Walk(bars, 0, entry, entry, entry, entry,
         1.0 - OrSetting(planTrailing, settingsTrailing), 1.0 - OrSetting(planStop, settingsStop))
  }

  /**
   * A back-test fails only on a zero entry price; otherwise it enters at
   * the first open, reports high >= entry >= low, and exits at the last
   * close when nothing triggered.
   */
  lemma BacktestSpec(planId: string, planTrailing: real, planStop: real, bars: seq<Bar>,
                     settingsTrailing: real, settingsStop: real, windowSeconds: int)
    requires |bars| > 0
    ensures var r := Backtest(planId, planTrailing, planStop, bars, settingsTrailing, settingsStop, windowSeconds);
      var w := BacktestWalk(planTrailing, planStop, bars, settingsTrailing, settingsStop);
      && (r.Err? <==> bars[0].open == 0.0)
      && (r.Ok? ==>
            && r.value.entryPrice == bars[0].open
            && r.value.exitPrice == w.exit
            && r.value.highestPrice >= bars[0].open >= r.value.lowestPrice
            && (w.cause.WindowEnd? ==> r.value.exitPrice == bars[|bars| - 1].close))
  {
    var entry := bars[0].open;
    var t := OrSetting(planTrailing, settingsTrailing);
    var s := OrSetting(planStop, settingsStop);
    WalkBounds(bars, 0, entry, entry, entry, entry, 1.0 - t, 1.0 - s);
    WalkExit(bars, 0, entry, entry, entry, entry, 1.0 - t, 1.0 - s);
  }

  /**
   * A back-test's exit is at the first bar, from the entry bar on, whose
   * close falls to the trailing level of the running high or whose low
   * falls to the stop level; with no such bar it runs to the last bar.
   */
  lemma BacktestFirstTrigger(planTrailing: real, planStop: real, bars: seq<Bar>, settingsTrailing: real, settingsStop: real)
    requires |bars| > 0
    ensures var entry := bars[0].open;
      var tt := 1.0 - OrSetting(planTrailing, settingsTrailing);
      var st := 1.0 - OrSetting(planStop, settingsStop);
      var k := StopBar(BacktestWalk(planTrailing, planStop, bars, settingsTrailing, settingsStop), |bars|);
      && k <= |bars|
      && (forall j :: 0 <= j < k ==> !Triggers(bars, j, HighThrough(bars, 0, j, entry), entry, tt, st))
      && (k < |bars| ==> Triggers(bars, k, HighThrough(bars, 0, k, entry), entry, tt, st))
  {
    var entry := bars[0].open;
    WalkFirstTrigger(bars, 0, entry, entry, entry, entry,
                     1.0 - OrSetting(planTrailing, settingsTrailing), 1.0 - OrSetting(planStop, settingsStop));
  }

  /** The reported PnL is the exit's return on entry: times the entry it gives the gain. */
  lemma BacktestPnl(planId: string, planTrailing: real, planStop: real, bars: seq<Bar>,
                    settingsTrailing: real, settingsStop: real, windowSeconds: int)
    requires |bars| > 0
    ensures var r := Backtest(planId, planTrailing, planStop, bars, settingsTrailing, settingsStop, windowSeconds);
      r.Ok? ==> r.value.pnlPercent * bars[0].open == r.value.exitPrice - bars[0].open
  {
    var r := Backtest(planId, planTrailing, planStop, bars, settingsTrailing, settingsStop, windowSeconds);
    if r.Ok? {
      PnlBack(r.value, bars[0].open);
    }
  }

  /** The PnL is the return on entry, so multiplying it back by the entry gives the exit's gain. */
  lemma PnlBack(r: TradeAnalysis, entry: real)
    requires entry != 0.0 && r.pnlPercent == (r.exitPrice - entry) / entry
    ensures r.pnlPercent * entry == r.exitPrice - entry
  {
  }

  /** A stop exit loses exactly the stop percentage. */
  lemma BacktestStopLoss(planId: string, planTrailing: real, planStop: real, bars: seq<Bar>,
                         settingsTrailing: real, settingsStop: real, windowSeconds: int)
    requires |bars| > 0 && bars[0].open != 0.0
    requires BacktestWalk(planTrailing, planStop, bars, settingsTrailing, settingsStop).cause.StopExit?
    ensures Backtest(planId, planTrailing, planStop, bars, settingsTrailing, settingsStop, windowSeconds).value.pnlPercent ==
      -OrSetting(planStop, settingsStop)
  {
    var entry := bars[0].open;
    var t := OrSetting(planTrailing, settingsTrailing);
    var s := OrSetting(planStop, settingsStop);
    WalkExit(bars, 0, entry, entry, entry, entry, 1.0 - t, 1.0 - s);
    StopReturn(entry, s);
  }

  lemma StopReturn(entry: real, s: real)
    requires entry != 0.0
    ensures (Level(entry, 1.0 - s) - entry) / entry == -s
  {
    assert Level(entry, 1.0 - s) - entry == -s * entry;
  }

  /** A trailing exit, with a positive entry and a trailing percentage at most 1, loses at most the trailing percentage. */
  lemma BacktestTrailingLoss(planId: string, planTrailing: real, planStop: real, bars: seq<Bar>,
                             settingsTrailing: real, settingsStop: real, windowSeconds: int)
    requires |bars| > 0 && bars[0].open > 0.0 && OrSetting(planTrailing, settingsTrailing) <= 1.0
    requires BacktestWalk(planTrailing, planStop, bars, settingsTrailing, settingsStop).cause.TrailingExit?
    ensures Backtest(planId, planTrailing, planStop, bars, settingsTrailing, settingsStop, windowSeconds).value.pnlPercent >=
      -OrSetting(planTrailing, settingsTrailing)
  {
    var entry := bars[0].open;
    var t := OrSetting(planTrailing, settingsTrailing);
    var s := OrSetting(planStop, settingsStop);
    WalkBounds(bars, 0, entry, entry, entry, entry, 1.0 - t, 1.0 - s);
    WalkExit(bars, 0, entry, entry, entry, entry, 1.0 - t, 1.0 - s);
    var w := BacktestWalk(planTrailing, planStop, bars, settingsTrailing, settingsStop);
    TrailingLossBound(entry, w.highest, t);
  }

  lemma TrailingLossBound(entry: real, high: real, t: real)
    requires entry > 0.0 && high >= entry && t <= 1.0
    ensures (Level(high, 1.0 - t) - entry) / entry >= -t
  {
    assert high * (1.0 - t) >= entry * (1.0 - t);
    assert high * (1.0 - t) - entry >= -t * entry;
  }

  /** `compute_plan`: the loop over the bars with its two `break`s. */
  method ComputePlan(plan: TradePlan, bars: seq<Bar>, settingsTrailing: real, settingsStop: real, windowSeconds: int)
    returns (r: Result<TradeAnalysis>)
    requires |bars| > 0
    ensures r == Backtest(plan.id, plan.trailingExitPct, plan.stopLossPct, bars, settingsTrailing, settingsStop, windowSeconds)
  {
    var entry := bars[0].open;
    var highest := entry;
    var lowest := entry;
    var trailingThreshold := 1.0 - OrSetting(plan.trailingExitPct, settingsTrailing);
    var stopThreshold := 1.0 - OrSetting(plan.stopLossPct, settingsStop);
    var exitPrice := entry;
    ghost var target := Walk(bars, 0, entry, entry, entry, entry, trailingThreshold, stopThreshold);
    var i := 0;
    while i < |bars|
      invariant 0 <= i <= |bars|
      invariant Walk(bars, i, entry, highest, lowest, exitPrice, trailingThreshold, stopThreshold) == target
    {
      var bar := bars[i];
      ghost var step := Walk(bars, i, entry, highest, lowest, exitPrice, trailingThreshold, stopThreshold);
      highest := Max(highest, bar.high);
      lowest := Min(lowest, bar.low);
      if bar.close <= Level(highest, trailingThreshold) {
        exitPrice := Level(highest, trailingThreshold);
        assert step == Walked(exitPrice, highest, lowest, TrailingExit(i));
        break;
      }
      if bar.low <= Level(entry, stopThreshold) {
        exitPrice := Level(entry, stopThreshold);
        assert step == Walked(exitPrice, highest, lowest, StopExit(i));
        break;
      }
      assert step == Walk(bars, i + 1, entry, highest, lowest, bar.close, trailingThreshold, stopThreshold);
      exitPrice := bar.close;
      i := i + 1;
    }
    assert exitPrice == target.exit && highest == target.highest && lowest == target.lowest;
    if entry == 0.0 {
      return Err("decimal division by zero");
    }
    r := Ok(TradeAnalysis(plan.id, entry, exitPrice, highest, lowest, (exitPrice - entry) / entry, NatDigits(|bars|), windowSeconds));
  }
}
