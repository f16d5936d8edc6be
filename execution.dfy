/**
 * The execution service: order sizing with the 0.001 quantisation, the
 * slippage test, the LIMIT-with-timeout placement and its fall back to a
 * market order, reading the fill out of the order reply, and the margin
 * check of manual plans with its temporary override of the position
 * percentage.  Exchange replies are parameters; the calls the placement
 * makes are returned as a trace.
 */
module Execution {
  import opened Common
  import opened ExitEngine

  // ---------------------------------------------------------------------
  // Order size
  // ---------------------------------------------------------------------

  /** Decimal's default rounding to a whole number: half to even. */
  function RoundHalfEven(y: real): (k: int)
    ensures -0.5 <= k as real - y <= 0.5
  {
    var f := y.Floor;
    var d := y - f as real;
    if d < 0.5 then f
    else if d > 0.5 then f + 1
    else if f % 2 == 0 then f else f + 1
  }

  /** `x.quantize(Decimal("0.001"))` */
  function Quantize3(x: real): real
  {
    RoundHalfEven(x * 1000.0) as real / 1000.0
  }

  /** Quantising moves a value by at most half a step and lands on the 0.001 grid. */
  lemma Quantize3Error(x: real)
    ensures -0.0005 <= Quantize3(x) - x <= 0.0005
    ensures (Quantize3(x) * 1000.0).Floor as real == Quantize3(x) * 1000.0
  {
    var y := x * 1000.0;
    var k := RoundHalfEven(y);
    ScaledDifference(k as real, x);
    assert Quantize3(x) * 1000.0 == k as real;
  }

  lemma ScaledDifference(kr: real, x: real)
    ensures kr / 1000.0 - x == (kr - x * 1000.0) / 1000.0
  {
  }

  /** Values already on the grid are left alone, so quantising twice is quantising once. */
  lemma Quantize3Idempotent(x: real)
    ensures Quantize3(Quantize3(x)) == Quantize3(x)
  {
    var k := RoundHalfEven(x * 1000.0);
    assert Quantize3(x) * 1000.0 == k as real;
    assert (k as real).Floor == k;
  }

  /** Half-way cases go to the even neighbour: 0.0025 becomes 0.002, 0.0035 becomes 0.004. */
  lemma Quantize3HalfEven()
    ensures Quantize3(0.0025) == 0.002
    ensures Quantize3(0.0035) == 0.004
  {
    assert (2.5).Floor == 2;
    assert (3.5).Floor == 3;
  }

  /** The settings the sizing reads; `maxOrderAmount` None or 0 means no cap. */
  class ExecutionSettings {
    var positionPct: real
    var maxOrderAmount: Option<real>
    var leverage: int
    var maxSlippagePct: real
    var orderType: string

    constructor (positionPct: real, maxOrderAmount: Option<real>, leverage: int, maxSlippagePct: real, orderType: string)
      ensures this.positionPct == positionPct && this.maxOrderAmount == maxOrderAmount && this.leverage == leverage
      ensures this.maxSlippagePct == maxSlippagePct && this.orderType == orderType
    {
      this.positionPct := positionPct;
      this.maxOrderAmount := maxOrderAmount;
      this.leverage := leverage;
      this.maxSlippagePct := maxSlippagePct;
      this.orderType := orderType;
    }
  }

  predicate Capped(maxOrderAmount: Option<real>)
  {
    maxOrderAmount.Some? && maxOrderAmount.value != 0.0
  }

  /** The allocation: balance × pct, lowered to the cap when one is set. */
  function Allocation(balance: real, pct: real, maxOrderAmount: Option<real>): real
  {
    var a := balance * pct;
    if Capped(maxOrderAmount) && a > maxOrderAmount.value then maxOrderAmount.value else a
  }

  /** The plan's leverage when it has one, else the settings' one. */
  function Leverage(leverage: Option<real>, settingsLeverage: int): real
  {
    if leverage.Some? then leverage.value else settingsLeverage as real
  }

  /** The unquantised quantity: allocation × leverage / price. */
  function ExactSize(price: real, balance: real, pct: real, maxOrderAmount: Option<real>, lev: real): real
    requires price != 0.0
  {
    Allocation(balance, pct, maxOrderAmount) * lev / price
  }

  /** `calculate_order_size` on explicit settings values. */
  function OrderSize(price: real, balance: real, pct: real, maxOrderAmount: Option<real>,
                     leverage: Option<real>, settingsLeverage: int): Result<real>
  {
    if balance * pct <= 0.0 || price <= 0.0 then Err("cannot size order")
    else Ok(Quantize3(ExactSize(price, balance, pct, maxOrderAmount, Leverage(leverage, settingsLeverage))))
  }

  /**
   * Sizing fails exactly when the uncapped allocation or the price is not
   * positive; otherwise the quantity is allocation × leverage / price to
   * within half of 0.001, the allocation never exceeds the cap, and the
   * plan's leverage wins over the settings' one.
   */
  lemma OrderSizeSpec(price: real, balance: real, pct: real, maxOrderAmount: Option<real>,
                      leverage: Option<real>, settingsLeverage: int)
    ensures OrderSize(price, balance, pct, maxOrderAmount, leverage, settingsLeverage).Err? <==>
      balance * pct <= 0.0 || price <= 0.0
    ensures Capped(maxOrderAmount) ==> Allocation(balance, pct, maxOrderAmount) <= maxOrderAmount.value
    ensures Allocation(balance, pct, maxOrderAmount) <= balance * pct
    ensures !Capped(maxOrderAmount) ==> Allocation(balance, pct, maxOrderAmount) == balance * pct
    ensures leverage.Some? ==> Leverage(leverage, settingsLeverage) == leverage.value
    ensures leverage.None? ==> Leverage(leverage, settingsLeverage) == settingsLeverage as real
    ensures var r := OrderSize(price, balance, pct, maxOrderAmount, leverage, settingsLeverage);
      r.Ok? ==>
        -0.0005 <= r.value - ExactSize(price, balance, pct, maxOrderAmount, Leverage(leverage, settingsLeverage)) <= 0.0005
  {
    if price > 0.0 {
      Quantize3Error(ExactSize(price, balance, pct, maxOrderAmount, Leverage(leverage, settingsLeverage)));
    }
  }

  /** The sizing as the service runs it, reading the settings object. */
  function SettingsOrderSize(settings: ExecutionSettings, price: real, balance: real, leverage: Option<real>): Result<real>
    reads settings
  {
    OrderSize(price, balance, settings.positionPct, settings.maxOrderAmount, leverage, settings.leverage)
  }

  // ---------------------------------------------------------------------
  // Slippage
  // ---------------------------------------------------------------------

  /** Slippage in percent: adverse moves are positive for either side. */
  function SlippagePct(expected: real, actual: real, side: Side): real
    requires expected > 0.0
  {
    if side == Buy then (actual - expected) / expected * 100.0 else (expected - actual) / expected * 100.0
  }

  /** `_check_slippage`: (valid, slippage). */
  function CheckSlippage(expected: real, actual: real, side: Side, maxPlan: Option<real>, maxSettings: real): (bool, real)
  {
    if expected <= 0.0 then (true, 0.0)
    else
      var s := SlippagePct(expected, actual, side);
      (s <= (if maxPlan.Some? then maxPlan.value else maxSettings), s)
  }

  /**
   * A non-positive expected price always passes; otherwise the order is
   * valid iff its slippage is within the plan's maximum (else the
   * settings'); a fill at or better than expected has no positive slippage.
   */
  lemma CheckSlippageSpec(expected: real, actual: real, side: Side, maxPlan: Option<real>, maxSettings: real)
    ensures expected <= 0.0 ==> CheckSlippage(expected, actual, side, maxPlan, maxSettings) == (true, 0.0)
    ensures expected > 0.0 ==>
      && CheckSlippage(expected, actual, side, maxPlan, maxSettings).1 == SlippagePct(expected, actual, side)
      && (CheckSlippage(expected, actual, side, maxPlan, maxSettings).0 <==>
            SlippagePct(expected, actual, side) <= (if maxPlan.Some? then maxPlan.value else maxSettings))
      && (side == Buy && actual <= expected ==> SlippagePct(expected, actual, side) <= 0.0)
      && (side != Buy && actual >= expected ==> SlippagePct(expected, actual, side) <= 0.0)
      && SlippagePct(expected, actual, Buy) == -SlippagePct(expected, actual, Sell)
  {
    if expected > 0.0 {
      if side == Buy && actual <= expected {
        NonPositiveRatio(actual - expected, expected);
      }
      if side != Buy && actual >= expected {
        NonPositiveRatio(expected - actual, expected);
      }
    }
  }

  lemma NonPositiveRatio(d: real, e: real)
    requires d <= 0.0 && e > 0.0
    ensures d / e * 100.0 <= 0.0
  {
  }

  // ---------------------------------------------------------------------
  // Placement
  // ---------------------------------------------------------------------

  /** An order reply; a missing orderId reads as "". */
  datatype OrderReply = OrderReply(orderId: string, status: string, avgPrice: Option<Num>, price: Option<Num>,
                                   executedQty: Option<Num>, origQty: Option<Num>)

  /** The exchange calls a placement makes, in order. */
  datatype Call = PlaceLimit | PlaceMarket | QueryStatus | CancelOrder

  predicate IsFilledOrPartial(status: string)
  {
    Upper(status) == "FILLED" || Upper(status) == "PARTIALLY_FILLED"
  }

  predicate IsDead(status: string)
  {
    Upper(status) == "CANCELED" || Upper(status) == "REJECTED" || Upper(status) == "EXPIRED"
  }

  function Queries(n: nat): (calls: seq<Call>)
    ensures |calls| == n && forall i :: 0 <= i < n ==> calls[i] == QueryStatus
  {
    if n == 0 then [] else [QueryStatus] + Queries(n - 1)
  }

  /**
   * Up to six status queries after a NEW market order, from attempt `k`
   * on: a failed query keeps the previous reply, and a FILLED or
   * PARTIALLY_FILLED reply stops the polling.  Returns the reply and the
   * number of queries made.
   */
  function PollMarket(current: OrderReply, polls: nat -> Option<OrderReply>, k: nat): (r: (OrderReply, nat))
    requires k <= 6
    ensures k <= r.1 <= 6
    decreases 6 - k
  {
    if k == 6 then (current, k)
    else
      var reply := polls(k);
      if reply.Some? && IsFilledOrPartial(reply.value.status) then (reply.value, k + 1)
      else PollMarket(if reply.Some? then reply.value else current, polls, k + 1)
  }

  /** The market path: the order, then polling only for a NEW order that has an id. */
  function MarketPlacement(initial: OrderReply, polls: nat -> Option<OrderReply>): (OrderReply, seq<Call>)
  {
    if Upper(initial.status) == "NEW" && initial.orderId != "" then
      var (reply, n) := PollMarket(initial, polls, 0);
      (reply, [PlaceMarket] + Queries(n))
    else (initial, [PlaceMarket])
  }

  /** The market path with its polling loop. */
  method MarketOrder(initial: OrderReply, polls: nat -> Option<OrderReply>) returns (result: OrderReply, calls: seq<Call>)
    ensures (result, calls) == MarketPlacement(initial, polls)
  {
    result := initial;
    calls := [PlaceMarket];
    if Upper(initial.status) == "NEW" && initial.orderId != "" {
      var k := 0;
      while k < 6
        invariant 0 <= k <= 6
        invariant calls == [PlaceMarket] + Queries(k)
        invariant PollMarket(initial, polls, 0) == PollMarket(result, polls, k)
      {
        var reply := polls(k);
        calls := calls + [QueryStatus];
        QueriesSnoc(k);
        if reply.Some? && IsFilledOrPartial(reply.value.status) {
          assert PollMarket(result, polls, k) == (reply.value, k + 1);
          result := reply.value;
          assert calls == [PlaceMarket] + Queries(k + 1);
          assert PollMarket(initial, polls, 0) == (result, k + 1);
          return;
        }
        if reply.Some? {
          result := reply.value;
        }
        k := k + 1;
      }
    }
  }

  lemma {:induction false} QueriesSnoc(n: nat)
    ensures Queries(n + 1) == Queries(n) + [QueryStatus]
  {
    if n > 0 {
      QueriesSnoc(n - 1);
    }
  }

  /**
   * The wait for a resting LIMIT order, from query `k` on: a FILLED reply
   * is returned, a CANCELED, REJECTED or EXPIRED one ends the wait, a
   * failed query or any other status keeps waiting until the queries that
   * fit in the timeout are used up.  Returns the fill, if any, and the
   * number of queries made.
   */
  function LimitWait(polls: seq<Option<OrderReply>>, k: nat): (r: (Option<OrderReply>, nat))
    requires k <= |polls|
    ensures k <= r.1 <= |polls|
    decreases |polls| - k
  {
    if k == |polls| then (None, k)
    else if polls[k].Some? && Upper(polls[k].value.status) == "FILLED" then (polls[k], k + 1)
    else if polls[k].Some? && IsDead(polls[k].value.status) then (None, k + 1)
    else LimitWait(polls, k + 1)
  }

  /**
   * `_place_order_with_timeout` with the fall-back going to a market order
   * (`fallbackToMarket`) or, as written, through a path that re-reads the
   * order type and so places another LIMIT order, whose reply is `again`.
   */
  function TimeoutPlacementWith(fallbackToMarket: bool, orderType: string, limitReply: OrderReply,
                                limitPolls: seq<Option<OrderReply>>, marketReply: OrderReply,
                                marketPolls: nat -> Option<OrderReply>, again: OrderReply): (OrderReply, seq<Call>)
  {
    var fallback := if fallbackToMarket then MarketPlacement(marketReply, marketPolls) else (again, [PlaceLimit]);
    if Upper(orderType) != "LIMIT" then MarketPlacement(marketReply, marketPolls)
    else if limitReply.orderId == "" then (fallback.0, [PlaceLimit] + fallback.1)
    else if Upper(limitReply.status) == "FILLED" then (limitReply, [PlaceLimit])
    else if IsDead(limitReply.status) then (fallback.0, [PlaceLimit] + fallback.1)
    else
      var (filled, n) := LimitWait(limitPolls, 0);
      if filled.Some? then (filled.value, [PlaceLimit] + Queries(n))
      else (fallback.0, [PlaceLimit] + Queries(n) + [CancelOrder] + fallback.1)
  }

  function TimeoutPlacement(orderType: string, limitReply: OrderReply, limitPolls: seq<Option<OrderReply>>,
                            marketReply: OrderReply, marketPolls: nat -> Option<OrderReply>): (OrderReply, seq<Call>)
  {
    TimeoutPlacementWith(true, orderType, limitReply, limitPolls, marketReply, marketPolls, marketReply)
  }

  function TimeoutPlacementAsWritten(orderType: string, limitReply: OrderReply, limitPolls: seq<Option<OrderReply>>,
                                     again: OrderReply): (OrderReply, seq<Call>)
  {
    TimeoutPlacementWith(false, orderType, limitReply, limitPolls, again, n => None, again)
  }

  /** The LIMIT order filled: at once, or during the wait. */
  predicate LimitFilled(limitReply: OrderReply, limitPolls: seq<Option<OrderReply>>)
  {
    && limitReply.orderId != ""
    && (Upper(limitReply.status) == "FILLED" || (!IsDead(limitReply.status) && LimitWait(limitPolls, 0).0.Some?))
  }

  function Count(calls: seq<Call>, c: Call): nat
  {
    if calls == [] then 0 else (if calls[0] == c then 1 else 0) + Count(calls[1..], c)
  }

  lemma {:induction false} CountAppend(a: seq<Call>, b: seq<Call>, c: Call)
    ensures Count(a + b, c) == Count(a, c) + Count(b, c)
  {
    if a != [] {
      assert (a + b)[1..] == a[1..] + b;
      CountAppend(a[1..], b, c);
    } else {
      assert a + b == b;
    }
  }

  lemma {:induction false} CountQueries(n: nat, c: Call)
    requires c != QueryStatus
    ensures Count(Queries(n), c) == 0
  {
    if n > 0 {
      CountQueries(n - 1, c);
    }
  }

  lemma MarketPlacementCounts(initial: OrderReply, polls: nat -> Option<OrderReply>)
    ensures Count(MarketPlacement(initial, polls).1, PlaceMarket) == 1
    ensures Count(MarketPlacement(initial, polls).1, PlaceLimit) == 0
    ensures Count(MarketPlacement(initial, polls).1, CancelOrder) == 0
  {
    if Upper(initial.status) == "NEW" && initial.orderId != "" {
      var n := PollMarket(initial, polls, 0).1;
      CountAppend([PlaceMarket], Queries(n), PlaceMarket);
      CountAppend([PlaceMarket], Queries(n), PlaceLimit);
      CountAppend([PlaceMarket], Queries(n), CancelOrder);
      CountQueries(n, PlaceMarket);
      CountQueries(n, PlaceLimit);
      CountQueries(n, CancelOrder);
    }
  }

  /**
   * The intended placement sends at most one LIMIT and at most one market
   * order: a non-LIMIT type sends only the market order; a LIMIT order
   * that fills is returned with no market order sent; otherwise exactly
   * one market order follows the LIMIT one, and a LIMIT order that was
   * waited on is cancelled first.
   */
  lemma TimeoutPlacementOrders(orderType: string, limitReply: OrderReply, limitPolls: seq<Option<OrderReply>>,
                               marketReply: OrderReply, marketPolls: nat -> Option<OrderReply>)
    ensures var (result, calls) := TimeoutPlacement(orderType, limitReply, limitPolls, marketReply, marketPolls);
      && Count(calls, PlaceMarket) <= 1 && Count(calls, PlaceLimit) <= 1
      && (Upper(orderType) != "LIMIT" ==> Count(calls, PlaceLimit) == 0 && Count(calls, PlaceMarket) == 1)
      && (Upper(orderType) == "LIMIT" ==> Count(calls, PlaceLimit) == 1 && calls[0] == PlaceLimit)
      && (Upper(orderType) == "LIMIT" && limitReply.orderId != "" && Upper(limitReply.status) == "FILLED" ==>
            result == limitReply && calls == [PlaceLimit])
      && (Count(calls, PlaceMarket) == 0 <==> Upper(orderType) == "LIMIT" && LimitFilled(limitReply, limitPolls))
      && (Upper(orderType) == "LIMIT" && LimitFilled(limitReply, limitPolls) ==> Upper(result.status) == "FILLED")
  {
    var fb := MarketPlacement(marketReply, marketPolls);
    MarketPlacementCounts(marketReply, marketPolls);
    if Upper(orderType) == "LIMIT" {
      if limitReply.orderId == "" || (Upper(limitReply.status) != "FILLED" && IsDead(limitReply.status)) {
        CountAppend([PlaceLimit], fb.1, PlaceMarket);
        CountAppend([PlaceLimit], fb.1, PlaceLimit);
        CountAppend([PlaceLimit], fb.1, CancelOrder);
        FallbackNotFilledOrDead(marketReply, marketPolls, limitReply);
      } else if Upper(limitReply.status) != "FILLED" {
        var (filled, n) := LimitWait(limitPolls, 0);
        LimitWaitFilled(limitPolls, 0);
        CountAppend([PlaceLimit], Queries(n), PlaceMarket);
        CountAppend([PlaceLimit], Queries(n), PlaceLimit);
        CountAppend([PlaceLimit], Queries(n), CancelOrder);
        CountQueries(n, PlaceMarket);
        CountQueries(n, PlaceLimit);
        CountQueries(n, CancelOrder);
        if filled.None? {
          var pre := [PlaceLimit] + Queries(n) + [CancelOrder];
          CountAppend([PlaceLimit] + Queries(n), [CancelOrder], PlaceMarket);
          CountAppend([PlaceLimit] + Queries(n), [CancelOrder], PlaceLimit);
          CountAppend([PlaceLimit] + Queries(n), [CancelOrder], CancelOrder);
          CountAppend(pre, fb.1, PlaceMarket);
          CountAppend(pre, fb.1, PlaceLimit);
          CountAppend(pre, fb.1, CancelOrder);
        }
      }
    }
  }

  /** A fill found while waiting has status FILLED. */
  lemma {:induction false} LimitWaitFilled(polls: seq<Option<OrderReply>>, k: nat)
    requires k <= |polls|
    ensures LimitWait(polls, k).0.Some? ==> Upper(LimitWait(polls, k).0.value.status) == "FILLED"
    decreases |polls| - k
  {
    if k < |polls| && !(polls[k].Some? && Upper(polls[k].value.status) == "FILLED") && !(polls[k].Some? && IsDead(polls[k].value.status)) {
      LimitWaitFilled(polls, k + 1);
    }
  }

  /**
   * Helper for the count lemma: when the fall-back market order is sent
   * the result is the market path's reply, which carries no cancel.
   */
  lemma FallbackNotFilledOrDead(marketReply: OrderReply, marketPolls: nat -> Option<OrderReply>, limitReply: OrderReply)
    ensures Count(MarketPlacement(marketReply, marketPolls).1, PlaceMarket) == 1
  {
    MarketPlacementCounts(marketReply, marketPolls);
  }

  /**
   * As written, a LIMIT order that times out is cancelled and followed by
   * a second LIMIT order at the same price, and no market order is ever
   * sent; the intended placement sends the market order instead.
   */
  lemma LimitFallbackPlacesLimitAgain(limitReply: OrderReply, again: OrderReply, marketReply: OrderReply)
    requires limitReply.orderId != "" && Upper(limitReply.status) == "NEW"
    ensures TimeoutPlacementAsWritten("LIMIT", limitReply, [], again).1 == [PlaceLimit, CancelOrder, PlaceLimit]
    ensures TimeoutPlacement("LIMIT", limitReply, [], marketReply, n => None).1[..3] == [PlaceLimit, CancelOrder, PlaceMarket]
  {
    assert Upper("LIMIT") == "LIMIT";
    assert Upper("NEW") == "NEW";
    assert !IsDead(limitReply.status);
    assert Queries(0) == [];
    var fb := MarketPlacement(marketReply, n => None);
    assert fb.1[0] == PlaceMarket;
  }

  /** `_place_order_with_timeout`, falling back to a market order. */
  method PlaceOrderWithTimeout(orderType: string, limitReply: OrderReply, limitPolls: seq<Option<OrderReply>>,
                               marketReply: OrderReply, marketPolls: nat -> Option<OrderReply>)
    returns (result: OrderReply, calls: seq<Call>)
    ensures (result, calls) == TimeoutPlacement(orderType, limitReply, limitPolls, marketReply, marketPolls)
  {
    if Upper(orderType) != "LIMIT" {
      result, calls := MarketOrder(marketReply, marketPolls);
      return;
    }
    calls := [PlaceLimit];
    if limitReply.orderId == "" || (Upper(limitReply.status) != "FILLED" && IsDead(limitReply.status)) {
      var fallbackCalls;
      result, fallbackCalls := MarketOrder(marketReply, marketPolls);
      calls := calls + fallbackCalls;
      return;
    }
    if Upper(limitReply.status) == "FILLED" {
      return limitReply, calls;
    }
    var k := 0;
    while k < |limitPolls|
      invariant 0 <= k <= |limitPolls|
      invariant calls == [PlaceLimit] + Queries(k)
      invariant LimitWait(limitPolls, 0) == LimitWait(limitPolls, k)
    {
      calls := calls + [QueryStatus];
      QueriesSnoc(k);
      var reply := limitPolls[k];
      if reply.Some? && Upper(reply.value.status) == "FILLED" {
        assert LimitWait(limitPolls, k) == (Some(reply.value), k + 1);
        assert calls == [PlaceLimit] + Queries(k + 1);
        assert Upper(orderType) == "LIMIT" && limitReply.orderId != "" && Upper(limitReply.status) != "FILLED" && !IsDead(limitReply.status);
        return reply.value, calls;
      }
      if reply.Some? && IsDead(reply.value.status) {
        assert LimitWait(limitPolls, k) == (None, k + 1);
        k := k + 1;
        assert calls == [PlaceLimit] + Queries(k);
        break;
      }
      k := k + 1;
    }
    assert LimitWait(limitPolls, 0) == (None, k);
    calls := calls + [CancelOrder];
    var fallbackCalls;
    result, fallbackCalls := MarketOrder(marketReply, marketPolls);
    calls := calls + fallbackCalls;
    assert !LimitFilled(limitReply, limitPolls);
  }

  // ---------------------------------------------------------------------
  // Reading the fill
  // ---------------------------------------------------------------------

  /** The entry price: avgPrice if truthy, else price if truthy, else the mark price. */
  function FillPrice(reply: OrderReply, mark: real): real
  {
    if Truthy(reply.avgPrice) then reply.avgPrice.value.value
    else if Truthy(reply.price) then reply.price.value.value
    else mark
  }

  /** The entry quantity: executedQty (default 0), else origQty (default the ordered quantity) when not positive. */
  function FillQuantity(reply: OrderReply, ordered: real): real
  {
    var executed := if reply.executedQty.Some? then reply.executedQty.value.value else 0.0;
    if executed > 0.0 then executed
    else if reply.origQty.Some? then reply.origQty.value.value else ordered
  }

  /** The fill an entry records, or the error it raises. */
  function EntryFill(reply: OrderReply, mark: real, ordered: real): (r: Result<(real, real)>)
  {
    if !IsFilledOrPartial(reply.status) then Err("order not filled")
    else if FillQuantity(reply, ordered) <= 0.0 then Err("invalid filled quantity")
    else Ok((FillPrice(reply, mark), FillQuantity(reply, ordered)))
  }

  /**
   * An entry succeeds exactly for a FILLED or PARTIALLY_FILLED reply with
   * a positive quantity; its price follows avgPrice, price, mark in that
   * order and its quantity executedQty, then origQty.
   */
  lemma EntryFillSpec(reply: OrderReply, mark: real, ordered: real)
    ensures EntryFill(reply, mark, ordered).Ok? <==> IsFilledOrPartial(reply.status) && FillQuantity(reply, ordered) > 0.0
    ensures EntryFill(reply, mark, ordered).Ok? ==> EntryFill(reply, mark, ordered).value.1 > 0.0
    ensures Truthy(reply.avgPrice) ==> FillPrice(reply, mark) == reply.avgPrice.value.value
    ensures !Truthy(reply.avgPrice) && Truthy(reply.price) ==> FillPrice(reply, mark) == reply.price.value.value
    ensures !Truthy(reply.avgPrice) && !Truthy(reply.price) ==> FillPrice(reply, mark) == mark
    ensures reply.executedQty.Some? && reply.executedQty.value.value > 0.0 ==> FillQuantity(reply, ordered) == reply.executedQty.value.value
    ensures (reply.executedQty.None? || reply.executedQty.value.value <= 0.0) && reply.origQty.None? ==> FillQuantity(reply, ordered) == ordered
  {
  }

  /** The price an entry is sized at: the hint, else the mark price, else 1. */
  function SizingPrice(hint: Option<real>, mark: Option<real>): real
  {
    if hint.Some? && hint.value != 0.0 then hint.value
    else if mark.Some? && mark.value != 0.0 then mark.value
    else 1.0
  }

  /** `execute_plan` trades the announcement's symbol with "USDT" appended, without upper-casing or checking. */
  function PlanSymbol(announcementSymbol: Option<string>): (r: Result<string>)
    ensures r.Ok? <==> announcementSymbol.Some? && announcementSymbol.value != ""
    ensures r.Ok? ==> r.value == announcementSymbol.value + "USDT"
  {
    if announcementSymbol.None? || announcementSymbol.value == "" then Err("plan has no symbol")
    else Ok(announcementSymbol.value + "USDT")
  }

  /**
   * The position an entry records: active, at the fill's price and
   * quantity, with both watermarks at the entry price and the plan's exit
   * parameters.
   */
  function EntryPosition(id: string, symbol: string, side: Side, fill: (real, real), now: int,
                         trailingExitPct: real, stopLossPct: real): Position
  {
    Position(id, symbol, side, Active, fill.0, fill.1, now, None, None, None, None,
             trailingExitPct, stopLossPct, Some(fill.0), Some(fill.0), Some(now))
  }

  /**
   * A fresh entry, as `RecordEntry` records it, with positive price and
   * positive stop-loss and trailing percentages is kept by the first
   * check at its own entry price, and its watermarks already bracket that
   * price.
   */
  lemma EntryPositionKeptAtEntry(id: string, symbol: string, side: Side, fill: (real, real), now: int,
                                 trailingExitPct: real, stopLossPct: real)
    requires fill.0 > 0.0 && trailingExitPct > 0.0 && stopLossPct > 0.0
    ensures var p := EntryPosition(id, symbol, side, fill, now, trailingExitPct, stopLossPct);
      && p.status == Active
      && CheckDecision(p, fill.0) == Keep
      && !ShouldExit(p, fill.0).exit
      && !ShouldUpdateHighLow(p, fill.0)
  {
    var price := fill.0;
    ShrinkBelow(price, stopLossPct);
    ShrinkBelow(price, trailingExitPct);
    GrowAbove(price, stopLossPct);
    GrowAbove(price, trailingExitPct);
  }

  /**
   * The position `execute_plan` and `execute_manual_plan` record once the
   * order is placed, as the code is written: both pass
   * `max_slippage_pct=plan.max_slippage_pct` to the position, a field
   * neither plan nor position has, so a filled entry raises after the
   * exchange order and records nothing.
   */
  function RecordEntryAsWritten(reply: OrderReply, mark: real, ordered: real, id: string, symbol: string, side: Side,
                                now: int, trailingExitPct: real, stopLossPct: real): (r: Result<Position>)
  {
    var fill := EntryFill(reply, mark, ordered);
    if fill.Err? then Err(fill.error)
    else Err("unexpected keyword max_slippage_pct")
  }

  /** The position an entry records, without the keyword: the filled entry, or the fill's error. */
  function RecordEntry(reply: OrderReply, mark: real, ordered: real, id: string, symbol: string, side: Side,
                       now: int, trailingExitPct: real, stopLossPct: real): (r: Result<Position>)
  {
    var fill := EntryFill(reply, mark, ordered);
    if fill.Err? then Err(fill.error)
    else Ok(EntryPosition(id, symbol, side, fill.value, now, trailingExitPct, stopLossPct))
  }

  /** As written, no reply whatsoever leads to a recorded position, even one the exchange filled. */
  lemma EntryRecordsNothingAsWritten(reply: OrderReply, mark: real, ordered: real, id: string, symbol: string,
                                     side: Side, now: int, trailingExitPct: real, stopLossPct: real)
    ensures RecordEntryAsWritten(reply, mark, ordered, id, symbol, side, now, trailingExitPct, stopLossPct).Err?
    ensures EntryFill(reply, mark, ordered).Ok? ==>
      RecordEntry(reply, mark, ordered, id, symbol, side, now, trailingExitPct, stopLossPct).Ok?
  {
  }

  /**
   * An entry is recorded exactly when the order filled with a positive
   * quantity; the record is active, at the fill's price and quantity, for
   * the given symbol and side, with both watermarks at the entry price
   * and the plan's exit parameters.
   */
  lemma RecordEntrySpec(reply: OrderReply, mark: real, ordered: real, id: string, symbol: string, side: Side,
                        now: int, trailingExitPct: real, stopLossPct: real)
    ensures var r := RecordEntry(reply, mark, ordered, id, symbol, side, now, trailingExitPct, stopLossPct);
      && (r.Ok? <==> IsFilledOrPartial(reply.status) && FillQuantity(reply, ordered) > 0.0)
      && (r.Ok? ==>
            && r.value.id == id && r.value.symbol == symbol && r.value.side == side && r.value.status == Active
            && r.value.entryPrice == FillPrice(reply, mark) && r.value.entryQuantity == FillQuantity(reply, ordered) > 0.0
            && r.value.highestPrice == r.value.lowestPrice == Some(r.value.entryPrice)
            && r.value.trailingExitPct == trailingExitPct && r.value.stopLossPct == stopLossPct
            && r.value.exitPrice.None? && r.value.exitTime.None?)
      && (r.Err? ==> r == Err(EntryFill(reply, mark, ordered).error))
  {
    EntryFillSpec(reply, mark, ordered);
  }

  lemma ShrinkBelow(price: real, pct: real)
    requires price > 0.0 && pct > 0.0
    ensures price * (1.0 - pct) < price
  {
    assert price * (1.0 - pct) == price - price * pct;
  }

  lemma GrowAbove(price: real, pct: real)
    requires price > 0.0 && pct > 0.0
    ensures price * (1.0 + pct) > price
  {
    assert price * (1.0 + pct) == price + price * pct;
  }

  // ---------------------------------------------------------------------
  // Manual plans: margin check with the position percentage overridden
  // ---------------------------------------------------------------------

  /** The margin an order of `quantity` at `mark` needs at `leverage`. */
  function RequiredMargin(quantity: real, mark: real, leverage: real): real
    requires leverage != 0.0
  {
    quantity * mark / leverage
  }

  /**
   * The quantity and margin check of `execute_manual_plan`, with the
   * plan's percentage and leverage: a zero leverage sizes a zero quantity
   * and then fails dividing the order value by it.
   */
  function ManualSizing(price: real, balance: real, planPct: real, maxOrderAmount: Option<real>,
                        planLeverage: real, settingsLeverage: int): Result<real>
  {
    var q := OrderSize(price, balance, planPct, maxOrderAmount, Some(planLeverage), settingsLeverage);
    if q.Err? then q
    else if planLeverage == 0.0 then Err("decimal division by zero")
    else if RequiredMargin(q.value, price, planLeverage) > balance * 0.99 then Err("insufficient margin")
    else q
  }

  /**
   * An accepted manual plan has a non-zero leverage, is sized exactly as
   * `calculate_order_size` sizes it with the plan's leverage, needs at
   * most 99% of the balance as margin and lies within half of 0.001 of
   * allocation × leverage / price; sizing errors and a zero leverage are
   * errors.
   */
  lemma ManualSizingSpec(price: real, balance: real, planPct: real, maxOrderAmount: Option<real>,
                         planLeverage: real, settingsLeverage: int)
    ensures var r := ManualSizing(price, balance, planPct, maxOrderAmount, planLeverage, settingsLeverage);
      && (r.Ok? ==> planLeverage != 0.0 && price > 0.0
                    && r == OrderSize(price, balance, planPct, maxOrderAmount, Some(planLeverage), settingsLeverage)
                    && RequiredMargin(r.value, price, planLeverage) <= balance * 0.99
                    && -0.0005 <= r.value - ExactSize(price, balance, planPct, maxOrderAmount, planLeverage) <= 0.0005)
      && (planLeverage == 0.0 || balance * planPct <= 0.0 || price <= 0.0 ==> r.Err?)
  {
    OrderSizeSpec(price, balance, planPct, maxOrderAmount, Some(planLeverage), settingsLeverage);
  }

  /**
   * With positive leverage, price and allocation, a plan whose allocation
   * leaves room for the rounding within 99% of the balance is accepted.
   */
  lemma ManualSizingAccepts(price: real, balance: real, planPct: real, maxOrderAmount: Option<real>,
                            planLeverage: real, settingsLeverage: int)
    requires planLeverage > 0.0 && price > 0.0 && balance * planPct > 0.0
    requires Allocation(balance, planPct, maxOrderAmount) + 0.0005 * price / planLeverage <= balance * 0.99
    ensures ManualSizing(price, balance, planPct, maxOrderAmount, planLeverage, settingsLeverage).Ok?
  {
    var allocation := Allocation(balance, planPct, maxOrderAmount);
    var exact := ExactSize(price, balance, planPct, maxOrderAmount, planLeverage);
    assert exact == allocation * planLeverage / price;
    Quantize3Error(exact);
    assert OrderSize(price, balance, planPct, maxOrderAmount, Some(planLeverage), settingsLeverage) == Ok(Quantize3(exact));
    MarginWithinRounding(Quantize3(exact), allocation, price, planLeverage);
  }

  /** A quantity within half a step above the exact size needs at most the allocation plus that half step's margin. */
  lemma MarginWithinRounding(q: real, allocation: real, price: real, lev: real)
    requires price > 0.0 && lev > 0.0 && q <= allocation * lev / price + 0.0005
    ensures RequiredMargin(q, price, lev) <= allocation + 0.0005 * price / lev
  {
    var exact := allocation * lev / price;
    assert exact * price == allocation * lev;
    ScaleUp(q, exact + 0.0005, price);
    assert (exact + 0.0005) * price == exact * price + 0.0005 * price;
    assert q * price / lev <= (allocation * lev + 0.0005 * price) / lev by { DivideUp(q * price, allocation * lev + 0.0005 * price, lev); }
    assert (allocation * lev + 0.0005 * price) / lev == allocation + 0.0005 * price / lev;
  }

  lemma ScaleUp(a: real, b: real, k: real)
    requires a <= b && k > 0.0
    ensures a * k <= b * k
  {
    assert b * k - a * k == (b - a) * k;
  }

  lemma DivideUp(a: real, b: real, k: real)
    requires a <= b && k > 0.0
    ensures a / k <= b / k
  {
    assert b / k - a / k == (b - a) / k;
  }

  /**
   * The sizing step of `execute_manual_plan`: the plan's percentage is put
   * into the settings for the computation and the original is restored on
   * every path.
   */
  method SizeManualPlan(settings: ExecutionSettings, price: real, balance: real, planPct: real, planLeverage: real)
    returns (quantity: Result<real>)
    modifies settings
    ensures settings.positionPct == old(settings.positionPct)
    ensures unchanged(settings`maxOrderAmount, settings`leverage, settings`maxSlippagePct, settings`orderType)
    ensures quantity == ManualSizing(price, balance, planPct, old(settings.maxOrderAmount), planLeverage, old(settings.leverage))
  {
    var original := settings.positionPct;
    settings.positionPct := planPct;
    quantity := SettingsOrderSize(settings, price, balance, Some(planLeverage));
    if quantity.Ok? && planLeverage == 0.0 {
      quantity := Err("decimal division by zero");
    } else if quantity.Ok? && RequiredMargin(quantity.value, price, planLeverage) > balance * 0.99 {
      quantity := Err("insufficient margin");
    }
    settings.positionPct := original;
  }
}
