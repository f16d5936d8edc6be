/**
 * Global risk checks run before a trade: drawdown, daily loss, position
 * concentration and leverage, in that order, the first rejection winning.
 * The exchange balance and mark prices are parameters (None where the
 * call raises); the position table is a sequence of rows.
 */
module Risk {
  import opened Common
  import opened ExitEngine

  datatype RiskSettings = RiskSettings(
    enabled: bool, maxDrawdownPct: real, maxDailyLossPct: real,
    maxConcentrationPct: real, maxTotalLeverage: int)

  datatype RiskKind = DrawdownLimit | DailyLossLimit | ConcentrationLimit | LeverageLimit

  /** A check's verdict; a rejection carries the measured value. */
  datatype RiskCheck = Allowed | Rejected(kind: RiskKind, measured: real)

  // ---------------------------------------------------------------------
  // Drawdown
  // ---------------------------------------------------------------------

  /**
   * `_check_max_drawdown`: the historical high is taken to be the current
   * balance itself. A failed balance call allows trading.
   */
  function DrawdownCheck(balance: Option<real>, s: RiskSettings): RiskCheck
  {
    if balance.None? then Allowed
    else
      var high := balance.value;
      if high > 0.0 then
        var drawdown := (high - balance.value) / high;
        if drawdown > s.maxDrawdownPct then Rejected(DrawdownLimit, drawdown) else Allowed
      else Allowed
  }

  /**
   * The measured drawdown is always 0, so the check rejects only a
   * positive balance under a negative limit, and never with a limit of at
   * least 0.
   */
  lemma DrawdownIsZero(balance: Option<real>, s: RiskSettings)
    ensures DrawdownCheck(balance, s).Rejected? <==>
      (balance.Some? && balance.value > 0.0 && s.maxDrawdownPct < 0.0)
    ensures DrawdownCheck(balance, s).Rejected? ==> DrawdownCheck(balance, s).measured == 0.0
    ensures s.maxDrawdownPct >= 0.0 ==> DrawdownCheck(balance, s) == Allowed
  {
    if balance.Some? && balance.value > 0.0 {
      assert (balance.value - balance.value) / balance.value == 0.0;
    }
  }

  // ---------------------------------------------------------------------
  // Daily loss
  // ---------------------------------------------------------------------

  /** The positions the daily-loss query selects: CLOSED with an exit at or after the start of the UTC day. */
  function ClosedSince(positions: seq<Position>, dayStart: int): (r: seq<Position>)
    ensures forall p :: p in r <==> p in positions && p.status == Closed && p.exitTime.Some? && p.exitTime.value >= dayStart
  {
    if positions == [] then []
    else
      var rest := ClosedSince(positions[1..], dayStart);
      var p := positions[0];
      assert forall q :: q in positions <==> q == p || q in positions[1..];
      if p.status == Closed && p.exitTime.Some? && p.exitTime.value >= dayStart then [p] + rest else rest
  }

  /** A closed position's PnL on its entry quantity; positions with a zero or missing price or quantity contribute 0. */
  function DayPnl(p: Position): real
  {
    if p.entryPrice != 0.0 && NonZero(p.exitPrice) && p.entryQuantity != 0.0 then
      if p.side == Buy then (p.exitPrice.value - p.entryPrice) * p.entryQuantity
      else (p.entryPrice - p.exitPrice.value) * p.entryQuantity
    else 0.0
  }

  function TotalDayPnl(ps: seq<Position>): real
  {
    if ps == [] then 0.0 else TotalDayPnl(ps[..|ps| - 1]) + DayPnl(ps[|ps| - 1])
  }

  /**
   * The decision of `_check_daily_loss` once the day's PnL is summed: the
   * start-of-day balance is the current one minus the PnL. A failed
   * balance call allows trading.
   */
  function DailyLossDecision(total: real, balance: Option<real>, s: RiskSettings): RiskCheck
  {
    if balance.None? then Allowed
    else
      var initial := balance.value - total;
      if total < 0.0 && initial > 0.0 then
        var loss := Abs(total / initial);
        if loss > s.maxDailyLossPct then Rejected(DailyLossLimit, loss) else Allowed
      else Allowed
  }

  /**
   * The daily-loss check rejects exactly when the day lost money, the
   * implied start-of-day balance is positive and the loss exceeds the
   * limit as a fraction of it; the measured value is that fraction, which
   * is positive. A day without a loss never rejects.
   */
  lemma DailyLossSpec(total: real, balance: Option<real>, s: RiskSettings)
    ensures var r := DailyLossDecision(total, balance, s);
      && (r.Rejected? <==>
            (balance.Some? && total < 0.0 && balance.value - total > 0.0 &&
             -total / (balance.value - total) > s.maxDailyLossPct))
      && (r.Rejected? ==> r.kind == DailyLossLimit && r.measured == -total / (balance.value - total) && r.measured > 0.0)
      && (total >= 0.0 ==> r == Allowed)
  {
    if balance.Some? && total < 0.0 && balance.value - total > 0.0 {
      NegativeRatio(total, balance.value - total);
    }
  }

  lemma NegativeRatio(a: real, b: real)
    requires a < 0.0 && b > 0.0
    ensures a / b < 0.0 && Abs(a / b) == -a / b
  {
    assert -a / b > 0.0;
    assert -a / b == -(a / b);
  }

  lemma DayPnlStep(today: seq<Position>, i: int)
    requires 0 <= i < |today|
    ensures TotalDayPnl(today[..i + 1]) == TotalDayPnl(today[..i]) + DayPnl(today[i])
  {
    assert today[..i + 1][..i] == today[..i];
  }

  /** The loop of `_check_daily_loss` summing the PnL of the day's closed positions. */
  method SumDayPnl(today: seq<Position>) returns (total: real)
    ensures total == TotalDayPnl(today)
  {
    total := 0.0;
    var i := 0;
    while i < |today|
      invariant 0 <= i <= |today|
      invariant total == TotalDayPnl(today[..i])
    {
      var p := today[i];
      DayPnlStep(today, i);
      if p.entryPrice != 0.0 && NonZero(p.exitPrice) && p.entryQuantity != 0.0 {
        var pnl;
        if p.side == Buy {
          pnl := (p.exitPrice.value - p.entryPrice) * p.entryQuantity;
        } else {
          pnl := (p.entryPrice - p.exitPrice.value) * p.entryQuantity;
        }
        total := total + pnl;
      }
      i := i + 1;
    }
    assert today[..i] == today;
  }

  /** `_check_daily_loss`: the day's closed positions are summed and the decision taken on that total. */
  method CheckDailyLoss(positions: seq<Position>, dayStart: int, balance: Option<real>, s: RiskSettings) returns (r: RiskCheck)
    ensures r == DailyLossDecision(TotalDayPnl(ClosedSince(positions, dayStart)), balance, s)
  {
    var total := SumDayPnl(ClosedSince(positions, dayStart));
    r := DailyLossDecision(total, balance, s);
  }

  // ---------------------------------------------------------------------
  // Concentration
  // ---------------------------------------------------------------------

  function Get(values: map<string, real>, symbol: string): real
  {
    if symbol in values then values[symbol] else 0.0
  }

  /**
   * Position values per symbol and their total: each active position
   * with a truthy mark price contributes entry quantity times price.
   */
  function Valuate(active: seq<Position>, price: string -> Option<real>): (map<string, real>, real)
  {
    if active == [] then (map[], 0.0)
    else AddValue(Valuate(active[..|active| - 1], price), active[|active| - 1], price)
  }

  /** One loop step: a position with a truthy price adds quantity * price to its symbol and the total. */
  function AddValue(acc: (map<string, real>, real), p: Position, price: string -> Option<real>): (map<string, real>, real)
  {
    if NonZero(price(p.symbol)) then
      var value := p.entryQuantity * price(p.symbol).value;
      (acc.0[p.symbol := Get(acc.0, p.symbol) + value], acc.1 + value)
    else acc
  }

  lemma ValuateSnoc(ps: seq<Position>, p: Position, price: string -> Option<real>)
    ensures Valuate(ps + [p], price) == AddValue(Valuate(ps, price), p, price)
  {
    var qs := ps + [p];
    assert qs[..|qs| - 1] == ps;
    assert qs[|qs| - 1] == p;
  }

  /** Positions with non-negative quantities priced non-negatively. */
  predicate NonNegativeValues(active: seq<Position>, price: string -> Option<real>)
  {
    forall i :: 0 <= i < |active| ==>
      active[i].entryQuantity >= 0.0 && (price(active[i].symbol).Some? ==> price(active[i].symbol).value >= 0.0)
  }

  /** With non-negative values, every symbol's value lies between 0 and the total. */
  lemma {:induction false} ValuateBounds(active: seq<Position>, price: string -> Option<real>)
    requires NonNegativeValues(active, price)
    ensures var (values, total) := Valuate(active, price);
      total >= 0.0 && forall k :: k in values ==> 0.0 <= values[k] <= total
  {
    if active != [] {
      var init := active[..|active| - 1];
      assert NonNegativeValues(init, price) by {
        forall i | 0 <= i < |init| ensures init[i] == active[i] { }
      }
      ValuateBounds(init, price);
      var p := active[|active| - 1];
      if NonZero(price(p.symbol)) {
        var (values, total) := Valuate(init, price);
        var value := p.entryQuantity * price(p.symbol).value;
        assert value >= 0.0 by { NonNegativeProduct(p.entryQuantity, price(p.symbol).value); }
      }
    }
  }

  lemma NonNegativeProduct(a: real, b: real)
    requires a >= 0.0 && b >= 0.0
    ensures a * b >= 0.0
  {
  }

  /**
   * `_check_position_concentration` once the values are known: the new
   * position is assumed to be worth the average of all active positions
   * (priced or not), and the check is skipped without a positive total.
   */
  function ConcentrationDecision(active: seq<Position>, price: string -> Option<real>, symbol: string, s: RiskSettings): RiskCheck
  {
    if active == [] then Allowed
    else ConcentrationFromValues(Valuate(active, price).0, Valuate(active, price).1, |active|, symbol, s)
  }

  /** The decision once the values of `n` active positions are known. */
  function ConcentrationFromValues(values: map<string, real>, total: real, n: nat, symbol: string, s: RiskSettings): RiskCheck
    requires n > 0
  {
    if total > 0.0 then
      var avg := total / (n as real);
      var concentration := (Get(values, symbol) + avg) / (total + avg);
      if concentration > s.maxConcentrationPct then Rejected(ConcentrationLimit, concentration) else Allowed
    else Allowed
  }

  /**
   * With non-negative values the measured concentration is a fraction in
   * (0, 1]; a symbol without a priced position is measured at
   * 1/(n+1) for n active positions; and a limit of at least 1 never rejects.
   */
  lemma ConcentrationSpec(active: seq<Position>, price: string -> Option<real>, symbol: string, s: RiskSettings)
    requires NonNegativeValues(active, price)
    ensures var r := ConcentrationDecision(active, price, symbol, s);
      && (r.Rejected? ==> 0.0 < r.measured <= 1.0 && r.measured > s.maxConcentrationPct)
      && (r.Rejected? && symbol !in Valuate(active, price).0 ==> r.measured == 1.0 / (|active| as real + 1.0))
      && (s.maxConcentrationPct >= 1.0 ==> r == Allowed)
  {
    if active != [] {
      ValuateBounds(active, price);
      var (values, total) := Valuate(active, price);
      ConcentrationFromValuesSpec(values, total, |active|, symbol, s);
    }
  }

  /**
   * Without a positive total the check is skipped; with one it rejects
   * exactly when n * value(symbol) + total exceeds max * total * (n + 1),
   * the ratio cross-multiplied, and a rejection reports a fraction in
   * (0, 1] above the maximum.
   */
  lemma ConcentrationFromValuesSpec(values: map<string, real>, total: real, n: nat, symbol: string, s: RiskSettings)
    requires n > 0 && total >= 0.0 && forall k :: k in values ==> 0.0 <= values[k] <= total
    ensures var r := ConcentrationFromValues(values, total, n, symbol, s);
      && (total <= 0.0 ==> r == Allowed)
      && (r.Rejected? <==> total > 0.0 && (n as real) * Get(values, symbol) + total > s.maxConcentrationPct * total * (n as real + 1.0))
      && (r.Rejected? ==> r.kind == ConcentrationLimit && 0.0 < r.measured <= 1.0 && r.measured > s.maxConcentrationPct)
      && (r.Rejected? && symbol !in values ==> r.measured == 1.0 / (n as real + 1.0))
      && (s.maxConcentrationPct >= 1.0 ==> r == Allowed)
  {
    if total > 0.0 {
      var v := Get(values, symbol);
      assert 0.0 <= v <= total;
      RatioFacts(v, total, n as real, s.maxConcentrationPct);
    }
  }

  /** What the measured ratio is, for a symbol worth `v` of a positive `total` over `n` positions. */
  lemma RatioFacts(v: real, total: real, n: real, m: real)
    requires total > 0.0 && n >= 1.0 && 0.0 <= v <= total
    ensures var c := (v + total / n) / (total + total / n);
      && 0.0 < c <= 1.0
      && (c > m <==> n * v + total > m * total * (n + 1.0))
      && (v == 0.0 ==> c == 1.0 / (n + 1.0))
  {
    var avg := total / n;
    assert avg > 0.0;
    FractionBounds(v, avg, total);
    CrossMultiplied(v, total, n, m);
    if v == 0.0 {
      AverageShare(total, n);
    }
  }

  /** The concentration test with its denominators cleared. */
  lemma CrossMultiplied(v: real, total: real, n: real, m: real)
    requires total > 0.0 && n >= 1.0
    ensures (v + total / n) / (total + total / n) > m <==> n * v + total > m * total * (n + 1.0)
  {
    var avg := total / n;
    var d := total + avg;
    assert avg * n == total;
    assert d == avg * (n + 1.0);
    var c := (v + avg) / d;
    assert c * d == v + avg;
    assert c > m <==> c * d > m * d by { ScaleStrict(c, m, d); }
    assert (v + avg) * n == n * v + total;
    assert m * d * n == m * total * (n + 1.0);
    assert c * d > m * d <==> (c * d) * n > (m * d) * n by { ScaleStrict(c * d, m * d, n); }
  }

  /** Multiplying by a positive factor keeps a strict order, both ways. */
  lemma ScaleStrict(a: real, b: real, k: real)
    requires k > 0.0
    ensures a > b <==> a * k > b * k
  {
    assert a * k - b * k == (a - b) * k;
  }

  lemma FractionBounds(v: real, avg: real, total: real)
    requires 0.0 <= v <= total && avg > 0.0
    ensures 0.0 < (v + avg) / (total + avg) <= 1.0
  {
  }

  lemma AverageShare(total: real, n: real)
    requires total > 0.0 && n >= 1.0
    ensures (0.0 + total / n) / (total + total / n) == 1.0 / (n + 1.0)
  {
    var avg := total / n;
    assert total == avg * n;
    assert total + avg == avg * (n + 1.0);
  }

  /** `_check_position_concentration`: the loop accumulating the values. */
  method CheckConcentration(active: seq<Position>, price: string -> Option<real>, symbol: string, s: RiskSettings)
    returns (r: RiskCheck)
    ensures r == ConcentrationDecision(active, price, symbol, s)
  {
    if active == [] {
      return Allowed;
    }
    var values: map<string, real> := map[];
    var total := 0.0;
    var i := 0;
    while i < |active|
      invariant 0 <= i <= |active|
      invariant values == Valuate(active[..i], price).0 && total == Valuate(active[..i], price).1
    {
      var p := active[i];
      assert active[..i + 1] == active[..i] + [p];
      ValuateSnoc(active[..i], p, price);
      ghost var next := AddValue((values, total), p, price);
      var current := price(p.symbol);
      if NonZero(current) {
        var value := p.entryQuantity * current.value;
        values := values[p.symbol := Get(values, p.symbol) + value];
        total := total + value;
      }
      assert values == next.0 && total == next.1;
      i := i + 1;
    }
    assert active[..i] == active;
    r := ConcentrationFromValues(values, total, |active|, symbol, s);
  }

  // ---------------------------------------------------------------------
  // Leverage and the combined check
  // ---------------------------------------------------------------------

  function LeverageCheck(leverage: int, s: RiskSettings): (r: RiskCheck)
    ensures r.Rejected? <==> leverage > s.maxTotalLeverage
  {
    if leverage > s.maxTotalLeverage then Rejected(LeverageLimit, leverage as real) else Allowed
  }

  /** What the checks read: the balance at each of the two balance calls, the position table, the day start and the mark prices. */
  datatype RiskEnv = RiskEnv(balanceAtDrawdown: Option<real>, balanceAtDailyLoss: Option<real>,
                             positions: seq<Position>, dayStart: int, price: string -> Option<real>)

  function ActiveOf(positions: seq<Position>): (r: seq<Position>)
    ensures forall p :: p in r <==> p in positions && p.status == Active
  {
    if positions == [] then []
    else
      var rest := ActiveOf(positions[1..]);
      assert forall q :: q in positions <==> q == positions[0] || q in positions[1..];
      if positions[0].status == Active then [positions[0]] + rest else rest
  }

  function DailyLossOf(env: RiskEnv, s: RiskSettings): RiskCheck
  {
    DailyLossDecision(TotalDayPnl(ClosedSince(env.positions, env.dayStart)), env.balanceAtDailyLoss, s)
  }

  /** The concentration check, run only for a truthy symbol. */
  function ConcentrationOf(env: RiskEnv, symbol: Option<string>, s: RiskSettings): RiskCheck
  {
    if symbol.Some? && symbol.value != "" then ConcentrationDecision(ActiveOf(env.positions), env.price, symbol.value, s)
    else Allowed
  }

  /** The leverage check, run only for a truthy leverage. */
  function LeverageOf(leverage: Option<int>, s: RiskSettings): RiskCheck
  {
    if leverage.Some? && leverage.value != 0 then LeverageCheck(leverage.value, s) else Allowed
  }

  /** `check_trading_allowed`. */
  function CheckTradingAllowed(s: RiskSettings, env: RiskEnv, symbol: Option<string>, leverage: Option<int>): RiskCheck
  {
    if !s.enabled then Allowed
    else
      var drawdown := DrawdownCheck(env.balanceAtDrawdown, s);
      if drawdown.Rejected? then drawdown
      else
        var daily := DailyLossOf(env, s);
        if daily.Rejected? then daily
        else
          var concentration := ConcentrationOf(env, symbol, s);
          if concentration.Rejected? then concentration
          else LeverageOf(leverage, s)
  }

  /**
   * With risk management off every trade is allowed. Otherwise trading is
   * allowed exactly when every applicable check allows it, and a rejection
   * is that of the first failing check in the order drawdown, daily loss,
   * concentration, leverage. Failed balance calls never reject.
   */
  lemma CheckOrder(s: RiskSettings, env: RiskEnv, symbol: Option<string>, leverage: Option<int>)
    ensures var r := CheckTradingAllowed(s, env, symbol, leverage);
      var d := DrawdownCheck(env.balanceAtDrawdown, s);
      var l := DailyLossOf(env, s);
      var c := ConcentrationOf(env, symbol, s);
      var v := LeverageOf(leverage, s);
      && (!s.enabled ==> r == Allowed)
      && (s.enabled ==> (r == Allowed <==> d == Allowed && l == Allowed && c == Allowed && v == Allowed))
      && (s.enabled && r.Rejected? ==>
            (r == d) || (d == Allowed && r == l) || (d == Allowed && l == Allowed && r == c) ||
            (d == Allowed && l == Allowed && c == Allowed && r == v))
      && (r.Rejected? && r.kind == LeverageLimit ==> leverage.Some? && leverage.value > s.maxTotalLeverage)
      && (env.balanceAtDrawdown.None? && env.balanceAtDailyLoss.None? ==> r.Rejected? ==> r.kind in {ConcentrationLimit, LeverageLimit})
  {
    var d := DrawdownCheck(env.balanceAtDrawdown, s);
    var l := DailyLossOf(env, s);
    var c := ConcentrationOf(env, symbol, s);
    if c.Rejected? {
      assert c.kind == ConcentrationLimit;
    }
  }
}
