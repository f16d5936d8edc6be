/**
 * The position service: the stop-loss and trailing-stop rules, the
 * high/low watermarks, closing a position (including one that has
 * disappeared on the exchange), realised PnL, the merge of duplicate
 * active positions and the sequential monitoring pass.  The position table
 * is a map from id to row; exchange replies and order outcomes are
 * parameters.
 */
module ExitEngine {
  import opened Common
  import ExchangeClient

  datatype PositionStatus = Active | Closed | Liquidated

  /** A row of the positions table. */
  datatype Position = Position(
    id: string, symbol: string, side: Side, status: PositionStatus,
    entryPrice: real, entryQuantity: real, entryTime: int,
    exitPrice: Option<real>, exitQuantity: Option<real>, exitTime: Option<int>, exitReason: Option<string>,
    trailingExitPct: real, stopLossPct: real,
    highestPrice: Option<real>, lowestPrice: Option<real>, lastCheckTime: Option<int>)

  /** `a or b` on optional Decimals. */
  function Or(a: Option<real>, b: real): real
  {
    if NonZero(a) then a.value else b
  }

  // ---------------------------------------------------------------------
  // Exit rules
  // ---------------------------------------------------------------------

  /** BUY stops out at or below entry*(1-sl); every other side at or above entry*(1+sl). */
  predicate StopLossHit(p: Position, price: real)
  {
    if p.side == Buy then price <= p.entryPrice * (1.0 - p.stopLossPct)
    else price >= p.entryPrice * (1.0 + p.stopLossPct)
  }

  /** The trailing reference of `_should_exit_position`: the watermark, or the entry price when it is None. */
  function TrailingReference(p: Position): real
  {
    if p.side == Buy then (if p.highestPrice.Some? then p.highestPrice.value else p.entryPrice)
    else (if p.lowestPrice.Some? then p.lowestPrice.value else p.entryPrice)
  }

  predicate TrailingHit(p: Position, price: real, reference: real)
  {
    reference != 0.0 &&
    if p.side == Buy then price <= reference * (1.0 - p.trailingExitPct)
    else price >= reference * (1.0 + p.trailingExitPct)
  }

  datatype ExitDecision = ExitDecision(exit: bool, reason: string)

  /** `_should_exit_position`: stop-loss first, then the trailing stop, else (False, ""). */
  function ShouldExit(p: Position, price: real): (d: ExitDecision)
    ensures d.exit <==> d.reason != ""
  {
    if StopLossHit(p, price) then ExitDecision(true, "stop_loss")
    else if TrailingHit(p, price, TrailingReference(p)) then ExitDecision(true, "trailing_stop")
    else ExitDecision(false, "")
  }

  /** The stop-loss reason is given exactly when the stop-loss level is crossed, whatever the trailing stop says. */
  lemma StopLossFiresIff(p: Position, price: real)
    ensures ShouldExit(p, price) == ExitDecision(true, "stop_loss") <==> StopLossHit(p, price)
    ensures p.side == Buy ==> (StopLossHit(p, price) <==> price <= p.entryPrice * (1.0 - p.stopLossPct))
    ensures p.side == Sell ==> (StopLossHit(p, price) <==> price >= p.entryPrice * (1.0 + p.stopLossPct))
  {
  }

  /** The trailing reason needs the stop-loss level uncrossed and the trailing level crossed. */
  lemma TrailingFiresIff(p: Position, price: real)
    ensures ShouldExit(p, price).reason == "trailing_stop" <==>
      !StopLossHit(p, price) && TrailingHit(p, price, TrailingReference(p))
    ensures ShouldExit(p, price) == ExitDecision(false, "") <==>
      !StopLossHit(p, price) && !TrailingHit(p, price, TrailingReference(p))
  {
  }

  /**
   * A BUY that exits at some price also exits at every lower price, and a
   * SELL at every higher price: the rule is monotone in the price.
   */
  lemma ExitMonotone(p: Position, price: real, worse: real)
    requires ShouldExit(p, price).exit
    requires if p.side == Buy then worse <= price else worse >= price
    ensures ShouldExit(p, worse).exit
  {
    if StopLossHit(p, price) {
      assert StopLossHit(p, worse);
    } else {
      assert TrailingHit(p, worse, TrailingReference(p));
    }
  }

  /** `_should_update_high_low`: false exactly when both watermarks exist and the price lies between them. */
  predicate ShouldUpdateHighLow(p: Position, price: real)
  {
    p.highestPrice.None? || price > p.highestPrice.value || p.lowestPrice.None? || price < p.lowestPrice.value
  }

  lemma ShouldUpdateIff(p: Position, price: real)
    ensures !ShouldUpdateHighLow(p, price) <==>
      p.highestPrice.Some? && p.lowestPrice.Some? && p.lowestPrice.value <= price <= p.highestPrice.value
  {
  }

  // ---------------------------------------------------------------------
  // `_check_position`: watermarks first, then the exit tests on the old ones
  // ---------------------------------------------------------------------

  /** The watermark update of `_check_position`, stamping the check time. */
  function Watermarked(p: Position, price: real, now: int): (q: Position)
  {
    p.(highestPrice := if p.highestPrice.None? || price > p.highestPrice.value then Some(price) else p.highestPrice,
       lowestPrice := if p.lowestPrice.None? || price < p.lowestPrice.value then Some(price) else p.lowestPrice,
       lastCheckTime := Some(now))
  }

  /**
   * After the update both watermarks exist, bracket the price, and have
   * moved only outwards; with nothing to update they are unchanged.
   */
  lemma WatermarksBracketPrice(p: Position, price: real, now: int)
    ensures var q := Watermarked(p, price, now);
      && q.highestPrice.Some? && q.lowestPrice.Some?
      && q.lowestPrice.value <= price <= q.highestPrice.value
      && (p.highestPrice.Some? ==> q.highestPrice.value >= p.highestPrice.value)
      && (p.lowestPrice.Some? ==> q.lowestPrice.value <= p.lowestPrice.value)
      && (!ShouldUpdateHighLow(p, price) ==> q.highestPrice == p.highestPrice && q.lowestPrice == p.lowestPrice)
      && q == p.(highestPrice := q.highestPrice, lowestPrice := q.lowestPrice, lastCheckTime := Some(now))
  {
  }

  datatype CheckOutcome =
    | Keep
    | CloseFor(reason: string)
    /** the PnL percentage divides by the entry price before any exit test */
    | EntryPriceZero

  /**
   * The decision `_check_position` takes on the row as it was before the
   * update: stop-loss first; the trailing stop only for BUY with a truthy
   * old high or SELL with a truthy old low, with no entry-price fallback.
   */
  function CheckDecision(p: Position, price: real): CheckOutcome
  {
    if p.entryPrice == 0.0 then EntryPriceZero
    else if StopLossHit(p, price) then CloseFor("stop_loss")
    else if p.side == Buy && NonZero(p.highestPrice) && price <= p.highestPrice.value * (1.0 - p.trailingExitPct) then
      CloseFor("trailing_stop")
    else if p.side == Sell && NonZero(p.lowestPrice) && price >= p.lowestPrice.value * (1.0 + p.trailingExitPct) then
      CloseFor("trailing_stop")
    else Keep
  }

  /**
   * With both watermarks set and non-zero, and a BUY or SELL side, the
   * check and the fast predicate agree.
   */
  lemma CheckAgreesWithShouldExit(p: Position, price: real)
    requires p.entryPrice != 0.0 && (p.side == Buy || p.side == Sell)
    requires NonZero(p.highestPrice) && NonZero(p.lowestPrice)
    ensures CheckDecision(p, price) == (if ShouldExit(p, price).exit then CloseFor(ShouldExit(p, price).reason) else Keep)
  {
  }

  /**
   * Without a high, `_should_exit_position` trails from the entry price and
   * closes a BUY that `_check_position` keeps.
   */
  lemma CheckSkipsTrailingWithoutHigh()
    ensures var p := Position("p", "XUSDT", Buy, Active, 100.0, 1.0, 0, None, None, None, None,
                              0.1, 0.5, None, None, None);
      && ShouldExit(p, 80.0) == ExitDecision(true, "trailing_stop")
      && CheckDecision(p, 80.0) == Keep
  {
  }

  /**
   * The trailing test of `_check_position` uses the old high: a new high
   * set by this very price can never trigger it.
   */
  lemma TrailingUsesOldHigh(p: Position, price: real)
    requires p.side == Buy && p.entryPrice != 0.0 && !StopLossHit(p, price)
    requires p.highestPrice.Some? && p.highestPrice.value > 0.0 && price > p.highestPrice.value
    requires 0.0 <= p.trailingExitPct
    ensures CheckDecision(p, price) == Keep
  {
    var h := p.highestPrice.value;
    assert h * (1.0 - p.trailingExitPct) <= h;
  }

  // ---------------------------------------------------------------------
  // Closing a position that is no longer on the exchange
  // ---------------------------------------------------------------------

  /** `_finalize_missing_position`; returns the finalized row and the reason used. */
  function FinalizeMissing(p: Position, exitPrice: Option<real>, defaultReason: string,
                           hasSystemRecord: bool, now: int): (Position, string)
  {
    var reason := if defaultReason == "external_closed" && !hasSystemRecord then "not_executed" else defaultReason;
    (p.(status := Closed,
        exitPrice := Some(if NonZero(exitPrice) then exitPrice.value else Or(p.exitPrice, p.entryPrice)),
        exitQuantity := Some(Or(p.exitQuantity, 0.0)),
        exitTime := Some(now),
        exitReason := Some(reason)),
     reason)
  }

  /**
   * The row always ends CLOSED with the reason used; "external_closed"
   * becomes "not_executed" exactly when no system record exists; the exit
   * price is the given one, else the stored one, else the entry price;
   * everything else about the position is kept.
   */
  lemma FinalizeMissingSpec(p: Position, exitPrice: Option<real>, defaultReason: string, hasSystemRecord: bool, now: int)
    ensures var (q, reason) := FinalizeMissing(p, exitPrice, defaultReason, hasSystemRecord, now);
      && q.status == Closed && q.exitReason == Some(reason) && q.exitTime == Some(now)
      && (reason == "not_executed" <==> defaultReason == "not_executed" || (defaultReason == "external_closed" && !hasSystemRecord))
      && (reason != defaultReason ==> defaultReason == "external_closed" && reason == "not_executed")
      && (NonZero(exitPrice) ==> q.exitPrice == exitPrice)
      && (!NonZero(exitPrice) && NonZero(p.exitPrice) ==> q.exitPrice == p.exitPrice)
      && (!NonZero(exitPrice) && !NonZero(p.exitPrice) ==> q.exitPrice == Some(p.entryPrice))
      && (NonZero(p.exitQuantity) ==> q.exitQuantity == p.exitQuantity)
      && (!NonZero(p.exitQuantity) ==> q.exitQuantity == Some(0.0))
      && q == p.(status := Closed, exitPrice := q.exitPrice, exitQuantity := q.exitQuantity,
                 exitTime := Some(now), exitReason := Some(reason))
  {
  }

  /** Where a position stands in one positions reply. */
  datatype Presence = Present | Absent | Unknown

  predicate Lists(positions: seq<ExchangeClient.ExchangePosition>, symbol: string, side: Side)
  {
    exists i | 0 <= i < |positions| :: positions[i].symbol == symbol && positions[i].side == side
  }

  /**
   * As written: the client turns a failed request into [], so the close
   * path cannot tell an outage from a position that is gone.
   */
  function PresenceOfAsWritten(reply: Option<seq<ExchangeClient.RawPosition>>, symbol: string, side: Side): Presence
  {
    var positions := if reply.None? then [] else ExchangeClient.OpenPositions(reply.value);
    if Lists(positions, symbol, side) then Present else Absent
  }

  /** As intended by the `is None` guards: a failed request leaves the presence unknown. */
  function PresenceOf(reply: Option<seq<ExchangeClient.RawPosition>>, symbol: string, side: Side): (r: Presence)
    ensures r == Unknown <==> reply.None?
  {
    if reply.None? then Unknown
    else if Lists(ExchangeClient.OpenPositions(reply.value), symbol, side) then Present else Absent
  }

  /** The two agree on every real reply; they differ only on a failed one. */
  lemma PresenceAgreesOnReplies(reply: Option<seq<ExchangeClient.RawPosition>>, symbol: string, side: Side)
    ensures reply.Some? ==> PresenceOf(reply, symbol, side) == PresenceOfAsWritten(reply, symbol, side)
    ensures reply.None? ==> PresenceOfAsWritten(reply, symbol, side) == Absent && PresenceOf(reply, symbol, side) == Unknown
  {
  }

  /** The route the close path takes when the position has no recent system close record. */
  datatype CloseRoute = PlaceOrder | SkipUnknown | KeepActive | FinalizeExternal

  /** `_confirm_position_absent_on_binance` over its two attempts. */
  predicate ConfirmedAbsent(presence1: Presence, presence2: Presence)
  {
    presence1 == Absent && presence2 == Absent
  }

  function RouteOf(first: Presence, confirm1: Presence, confirm2: Presence): CloseRoute
  {
    if first == Present then PlaceOrder
    else if first == Unknown then SkipUnknown
    else if !ConfirmedAbsent(confirm1, confirm2) then KeepActive
    else FinalizeExternal
  }

  function CloseRouteAsWritten(reply: Option<seq<ExchangeClient.RawPosition>>, confirm1: Option<seq<ExchangeClient.RawPosition>>,
                               confirm2: Option<seq<ExchangeClient.RawPosition>>, symbol: string, side: Side): CloseRoute
  {
    RouteOf(PresenceOfAsWritten(reply, symbol, side), PresenceOfAsWritten(confirm1, symbol, side), PresenceOfAsWritten(confirm2, symbol, side))
  }

  function Route(reply: Option<seq<ExchangeClient.RawPosition>>, confirm1: Option<seq<ExchangeClient.RawPosition>>,
                 confirm2: Option<seq<ExchangeClient.RawPosition>>, symbol: string, side: Side): CloseRoute
  {
    RouteOf(PresenceOf(reply, symbol, side), PresenceOf(confirm1, symbol, side), PresenceOf(confirm2, symbol, side))
  }

  /** An exchange outage during all three position fetches marks an open position as closed externally. */
  lemma OutageFinalizesPosition(symbol: string, side: Side)
    ensures CloseRouteAsWritten(None, None, None, symbol, side) == FinalizeExternal
    ensures Route(None, None, None, symbol, side) == SkipUnknown
  {
  }

  /**
   * With the guards working, a position is finalized as gone only when all
   * three fetches were answered and none of them listed it.
   */
  lemma FinalizeNeedsThreeAnswers(reply: Option<seq<ExchangeClient.RawPosition>>, confirm1: Option<seq<ExchangeClient.RawPosition>>,
                                  confirm2: Option<seq<ExchangeClient.RawPosition>>, symbol: string, side: Side)
    ensures Route(reply, confirm1, confirm2, symbol, side) == FinalizeExternal <==>
      && reply.Some? && confirm1.Some? && confirm2.Some?
      && !Lists(ExchangeClient.OpenPositions(reply.value), symbol, side)
      && !Lists(ExchangeClient.OpenPositions(confirm1.value), symbol, side)
      && !Lists(ExchangeClient.OpenPositions(confirm2.value), symbol, side)
  {
  }

  /** A recent `position_closed` log: the reason in its payload and its price. */
  datatype CloseLog = CloseLog(reason: Option<string>, price: Option<real>)

  /** What the exchange did with the closing market order: the fill's price and quantity, or a failure. */
  datatype CloseOrder = OrderFilled(price: real, quantity: Option<real>) | OrderFailed

  datatype CloseOutcome = AlreadyClosed | InProgress | StatusUnknown | StillOpen | FinalizedMissing(reason: string)
                        | ClosedByOrder | CloseFailed

  /** The keyword arguments of a `place_market_order` call. */
  datatype MarketOrderCall = MarketOrderCall(reduceOnly: bool, positionSide: Option<string>)

  /**
   * `place_market_order(symbol, side, quantity, reduce_only=False)` has no
   * `position_side` parameter: a call naming it raises before any order
   * is sent.
   */
  predicate SignatureAccepts(call: MarketOrderCall)
  {
    call.positionSide.None?
  }

  /** The close path's call as written: reduce-only, with the hedge-mode side LONG or SHORT. */
  function CloseCallAsWritten(side: Side): MarketOrderCall
  {
    MarketOrderCall(true, Some(if side == Buy then "LONG" else "SHORT"))
  }

  /** The call the client takes: reduce-only, without a position side. */
  const CloseCall := MarketOrderCall(true, None)

  /** As written, the close call is refused for either side; the reduce-only call without a side is taken. */
  lemma CloseCallRefusedAsWritten(side: Side)
    ensures !SignatureAccepts(CloseCallAsWritten(side)) && CloseCallAsWritten(side).reduceOnly
    ensures SignatureAccepts(CloseCall) && CloseCall.reduceOnly
  {
  }

  /** The exit price of a finalize after a recent system close: the given price, else the log's, else the entry price. */
  function RecentClosePrice(p: Position, exitPrice: real, log: CloseLog): real
  {
    if exitPrice != 0.0 then exitPrice else Or(log.price, p.entryPrice)
  }

  /** The reason of a finalize after a recent system close: the log's, else the requested one. */
  function RecentCloseReason(log: CloseLog, reason: string): string
  {
    if log.reason.Some? then log.reason.value else reason
  }

  /**
   * A row whose position the exchange no longer lists: finalized with a
   * recent system close's reason and price if there is one; otherwise kept
   * unless two more fetches confirm the absence, then finalized as
   * external.
   */
  function GoneResult(p: Position, exitPrice: real, reason: string, now: int, recentClose: Option<CloseLog>,
                      confirm1: Option<seq<ExchangeClient.RawPosition>>, confirm2: Option<seq<ExchangeClient.RawPosition>>,
                      hasSystemRecord: bool): (CloseOutcome, Position)
  {
    if recentClose.Some? then
      var (q, used) := FinalizeMissing(p, Some(RecentClosePrice(p, exitPrice, recentClose.value)),
                                       RecentCloseReason(recentClose.value, reason), hasSystemRecord, now);
      (FinalizedMissing(used), q)
    else if !ConfirmedAbsent(PresenceOf(confirm1, p.symbol, p.side), PresenceOf(confirm2, p.symbol, p.side)) then (StillOpen, p)
    else
      var (q, used) := FinalizeMissing(p, Some(if exitPrice != 0.0 then exitPrice else p.entryPrice),
                                       "external_closed", hasSystemRecord, now);
      (FinalizedMissing(used), q)
  }

  /** A row whose position the exchange lists: closed at the fill when the call is taken and the order fills. */
  function OrderResult(p: Position, reason: string, now: int, call: MarketOrderCall, order: CloseOrder): (CloseOutcome, Position)
  {
    if !SignatureAccepts(call) || order.OrderFailed? then (CloseFailed, p)
    else
      (ClosedByOrder, p.(status := Closed, exitPrice := Some(order.price),
                         exitQuantity := Some(Or(order.quantity, p.entryQuantity)),
                         exitTime := Some(now), exitReason := Some(reason)))
  }

  /**
   * What `_close_position` does to a row that is neither CLOSED nor being
   * closed, given the exchange's answers: the outcome and the row after it.
   */
  function CloseResult(p: Position, exitPrice: real, reason: string, now: int,
                       reply: Option<seq<ExchangeClient.RawPosition>>, recentClose: Option<CloseLog>,
                       confirm1: Option<seq<ExchangeClient.RawPosition>>, confirm2: Option<seq<ExchangeClient.RawPosition>>,
                       hasSystemRecord: bool, call: MarketOrderCall, order: CloseOrder): (CloseOutcome, Position)
  {
    match PresenceOf(reply, p.symbol, p.side)
    case Unknown => (StatusUnknown, p)
    case Absent => GoneResult(p, exitPrice, reason, now, recentClose, confirm1, confirm2, hasSystemRecord)
    case Present => OrderResult(p, reason, now, call, order)
  }

  /**
   * By route: an unknown presence leaves the row as it is; a position the
   * exchange still lists, or that is not confirmed gone twice, stays
   * ACTIVE; a confirmed disappearance finalizes it as external (or not
   * executed); a recent system close finalizes it with that close's
   * reason and price; a present position is closed at the order's fill
   * exactly when the client takes the call and the order fills, and a
   * refused call or failed order changes nothing.  The row is CLOSED
   * afterwards exactly on the finalize and order outcomes, keeps its id,
   * and is otherwise untouched.
   */
  lemma CloseResultSpec(p: Position, exitPrice: real, reason: string, now: int,
                        reply: Option<seq<ExchangeClient.RawPosition>>, recentClose: Option<CloseLog>,
                        confirm1: Option<seq<ExchangeClient.RawPosition>>, confirm2: Option<seq<ExchangeClient.RawPosition>>,
                        hasSystemRecord: bool, call: MarketOrderCall, order: CloseOrder)
    requires p.status != Closed
    ensures var (outcome, q) := CloseResult(p, exitPrice, reason, now, reply, recentClose, confirm1, confirm2, hasSystemRecord, call, order);
      && q.id == p.id
      && (outcome.FinalizedMissing? || outcome == ClosedByOrder <==> q.status == Closed)
      && (!(outcome.FinalizedMissing? || outcome == ClosedByOrder) ==> q == p)
      && (recentClose.Some? && PresenceOf(reply, p.symbol, p.side) == Absent ==>
            outcome.FinalizedMissing? && q.exitTime == Some(now)
            && (RecentClosePrice(p, exitPrice, recentClose.value) != 0.0 ==>
                  q.exitPrice == Some(RecentClosePrice(p, exitPrice, recentClose.value)))
            && (recentClose.value.reason.Some? && recentClose.value.reason.value != "external_closed" ==>
                  q.exitReason == recentClose.value.reason))
      && (recentClose.None? || PresenceOf(reply, p.symbol, p.side) != Absent ==>
            match Route(reply, confirm1, confirm2, p.symbol, p.side)
            case SkipUnknown => outcome == StatusUnknown
            case KeepActive => outcome == StillOpen
            case FinalizeExternal =>
              && (outcome == FinalizedMissing(if hasSystemRecord then "external_closed" else "not_executed"))
              && (exitPrice != 0.0 ==> q.exitPrice == Some(exitPrice))
              && (exitPrice == 0.0 && p.entryPrice != 0.0 ==> q.exitPrice == Some(p.entryPrice))
            case PlaceOrder =>
              (outcome == ClosedByOrder <==> SignatureAccepts(call) && order.OrderFilled?)
              && (outcome != ClosedByOrder ==> outcome == CloseFailed)
              && (outcome == ClosedByOrder ==>
                    q.exitPrice == Some(order.price) && q.exitReason == Some(reason) && q.exitTime == Some(now)
                    && q.exitQuantity == Some(Or(order.quantity, p.entryQuantity))))
  {
    if recentClose.Some? && PresenceOf(reply, p.symbol, p.side) == Absent {
      FinalizeMissingSpec(p, Some(RecentClosePrice(p, exitPrice, recentClose.value)),
                          RecentCloseReason(recentClose.value, reason), hasSystemRecord, now);
    } else if Route(reply, confirm1, confirm2, p.symbol, p.side) == FinalizeExternal {
      FinalizeMissingSpec(p, Some(if exitPrice != 0.0 then exitPrice else p.entryPrice), "external_closed", hasSystemRecord, now);
    }
  }

  // ---------------------------------------------------------------------
  // Realised PnL
  // ---------------------------------------------------------------------

  /** The quantity `_calculate_realized_pnl` uses: the exit quantity, else the entry quantity. */
  function PnlQuantity(p: Position): real
    requires p.exitQuantity.Some?
  {
    var qty := Or(p.exitQuantity, p.entryQuantity);
    if qty <= 0.0 then p.entryQuantity else qty
  }

  /** `_calculate_realized_pnl` */
  function RealizedPnl(p: Position): real
  {
    if !NonZero(p.exitPrice) || p.exitQuantity.None? then 0.0
    else
      var qty := PnlQuantity(p);
      if qty <= 0.0 then 0.0
      else if p.side == Buy then (p.exitPrice.value - p.entryPrice) * qty
      else (p.entryPrice - p.exitPrice.value) * qty
  }

  /**
   * PnL is zero without an exit price, without an exit quantity, or
   * without a positive quantity; otherwise it is the price move times the
   * quantity, with the sign of the side, so a BUY gains exactly when it
   * exits above entry and a SELL exactly when it exits below.
   */
  lemma RealizedPnlSpec(p: Position)
    ensures !NonZero(p.exitPrice) || p.exitQuantity.None? ==> RealizedPnl(p) == 0.0
    ensures NonZero(p.exitPrice) && p.exitQuantity.Some? && PnlQuantity(p) > 0.0 ==>
      && RealizedPnl(p) == (if p.side == Buy then p.exitPrice.value - p.entryPrice else p.entryPrice - p.exitPrice.value) * PnlQuantity(p)
      && (p.side == Buy ==> (RealizedPnl(p) > 0.0 <==> p.exitPrice.value > p.entryPrice))
      && (p.side == Sell ==> (RealizedPnl(p) > 0.0 <==> p.exitPrice.value < p.entryPrice))
    ensures p.exitQuantity.Some? && PnlQuantity(p) <= 0.0 ==> RealizedPnl(p) == 0.0
  {
    if NonZero(p.exitPrice) && p.exitQuantity.Some? && PnlQuantity(p) > 0.0 {
      var q := PnlQuantity(p);
      var d := if p.side == Buy then p.exitPrice.value - p.entryPrice else p.entryPrice - p.exitPrice.value;
      PositiveProduct(d, q);
    }
  }

  lemma PositiveProduct(d: real, q: real)
    requires q > 0.0
    ensures d * q > 0.0 <==> d > 0.0
  {
    if d > 0.0 {
      assert d * q > 0.0;
    } else {
      assert d * q <= 0.0;
    }
  }

  /** The quantity falls back to the entry quantity when the exit quantity is not positive. */
  lemma PnlQuantityFallback(p: Position)
    requires p.exitQuantity.Some?
    ensures p.exitQuantity.value > 0.0 ==> PnlQuantity(p) == p.exitQuantity.value
    ensures p.exitQuantity.value <= 0.0 ==> PnlQuantity(p) == p.entryQuantity
  {
  }

  /** Closing the same trade on the other side negates its PnL. */
  lemma PnlSideSymmetry(p: Position)
    ensures RealizedPnl(p.(side := Buy)) == -RealizedPnl(p.(side := Sell))
  {
  }

  // ---------------------------------------------------------------------
  // Duplicate merge
  // ---------------------------------------------------------------------

  /** Exit parameters that differ from the defaults by at least 0.0001. */
  predicate IsCustom(p: Position, defaultTrailing: real, defaultStop: real)
  {
    Abs(p.trailingExitPct - defaultTrailing) >= 0.0001 || Abs(p.stopLossPct - defaultStop) >= 0.0001
  }

  function Abs(x: real): real
  {
    if x < 0.0 then -x else x
  }

  /** `max(ps, key=entry_time)`: the index of the first position with the latest entry time. */
  function LatestIndex(ps: seq<Position>): (i: nat)
    requires ps != []
    ensures i < |ps|
    ensures forall j :: 0 <= j < |ps| ==> ps[j].entryTime <= ps[i].entryTime
    ensures forall j :: 0 <= j < i ==> ps[j].entryTime < ps[i].entryTime
  {
    if |ps| == 1 then 0
    else
      var k := LatestIndex(ps[..|ps| - 1]);
      if ps[|ps| - 1].entryTime > ps[k].entryTime then |ps| - 1 else k
  }

  function Customs(ps: seq<Position>, defaultTrailing: real, defaultStop: real): (cs: seq<Position>)
    ensures forall p :: p in cs <==> p in ps && IsCustom(p, defaultTrailing, defaultStop)
  {
    if ps == [] then []
    else
      var rest := Customs(ps[1..], defaultTrailing, defaultStop);
      if IsCustom(ps[0], defaultTrailing, defaultStop) then [ps[0]] + rest else rest
  }

  /** The position a group keeps: the latest customised one, else the latest. */
  function Keeper(group: seq<Position>, defaultTrailing: real, defaultStop: real): (k: Position)
    requires group != []
    ensures k in group
  {
    var cs := Customs(group, defaultTrailing, defaultStop);
    if cs != [] then cs[LatestIndex(cs)] else group[LatestIndex(group)]
  }

  /**
   * The keeper is customised whenever any position of the group is, and
   * no position it competes with entered later.
   */
  lemma KeeperIsLatestPreferred(group: seq<Position>, defaultTrailing: real, defaultStop: real)
    requires group != []
    ensures var k := Keeper(group, defaultTrailing, defaultStop);
      && ((exists p :: p in group && IsCustom(p, defaultTrailing, defaultStop)) ==>
            IsCustom(k, defaultTrailing, defaultStop)
            && forall p :: p in group && IsCustom(p, defaultTrailing, defaultStop) ==> p.entryTime <= k.entryTime)
      && ((forall p :: p in group ==> !IsCustom(p, defaultTrailing, defaultStop)) ==>
            forall p :: p in group ==> p.entryTime <= k.entryTime)
  {
    var cs := Customs(group, defaultTrailing, defaultStop);
    if exists p :: p in group && IsCustom(p, defaultTrailing, defaultStop) {
      var p :| p in group && IsCustom(p, defaultTrailing, defaultStop);
      assert p in cs;
      forall q | q in group && IsCustom(q, defaultTrailing, defaultStop)
        ensures q.entryTime <= cs[LatestIndex(cs)].entryTime
      {
        assert q in cs;
        var j :| 0 <= j < |cs| && cs[j] == q;
      }
    } else {
      forall q | q in group
        ensures q.entryTime <= group[LatestIndex(group)].entryTime
      {
        var j :| 0 <= j < |group| && group[j] == q;
      }
    }
  }

  /** The active positions sharing a (symbol, side) key, in listing order. */
  function Group(active: seq<Position>, symbol: string, side: Side): (g: seq<Position>)
    ensures forall p :: p in g <==> p in active && p.symbol == symbol && p.side == side
    ensures |g| <= |active|
  {
    if active == [] then []
    else
      var rest := Group(active[1..], symbol, side);
      if active[0].symbol == symbol && active[0].side == side then [active[0]] + rest else rest
  }

  /** Whether the merge closes `p`: its group has several positions and `p` is not the keeper. */
  predicate MergeCloses(active: seq<Position>, p: Position, defaultTrailing: real, defaultStop: real)
    requires p in active
  {
    var g := Group(active, p.symbol, p.side);
    |g| > 1 && p.id != Keeper(g, defaultTrailing, defaultStop).id
  }

  predicate DistinctIds(ps: seq<Position>)
  {
    forall i, j :: 0 <= i < j < |ps| ==> ps[i].id != ps[j].id
  }

  // ---------------------------------------------------------------------
  // Monitoring pass
  // ---------------------------------------------------------------------

  /**
   * As written, a position without a batch price reaches a call to a
   * client method that does not exist; the error is caught and the
   * position is skipped for this round.
   */
  function ResolvePriceAsWritten(prices: map<string, real>, p: Position): Option<real>
  {
    if p.symbol in prices && prices[p.symbol] != 0.0 then Some(prices[p.symbol]) else None
  }

  /** As intended: the batch price, else the cached price, else the entry price. */
  function ResolvePrice(prices: map<string, real>, cached: map<string, real>, p: Position): (r: Option<real>)
    ensures r.Some?
  {
    if p.symbol in prices && prices[p.symbol] != 0.0 then Some(prices[p.symbol])
    else if p.symbol in cached && cached[p.symbol] != 0.0 then Some(cached[p.symbol])
    else Some(p.entryPrice)
  }

  /**
   * A position missing from the batch is never checked as written, even
   * when its stop-loss has long been crossed; the intended resolution
   * checks it at the entry price.
   */
  lemma MissingBatchPriceSkipsPosition()
    ensures var p := Position("p", "XUSDT", Buy, Active, 100.0, 1.0, 0, None, None, None, None,
                              0.1, 0.0, Some(100.0), Some(100.0), None);
      && ResolvePriceAsWritten(map[], p) == None
      && ResolvePrice(map[], map[], p) == Some(100.0)
      && ShouldExit(p, 100.0) == ExitDecision(true, "stop_loss")
  {
  }

  /** Both resolutions agree whenever the batch has a non-zero price. */
  lemma ResolvePriceAgrees(prices: map<string, real>, cached: map<string, real>, p: Position)
    requires p.symbol in prices && prices[p.symbol] != 0.0
    ensures ResolvePrice(prices, cached, p) == ResolvePriceAsWritten(prices, p)
  {
  }

  datatype Action = CloseAction(position: Position, price: real, reason: string) | UpdateAction(position: Position, price: real)

  /** The action the monitor records for one position at its resolved price, if any. */
  function Classify(p: Position, price: real): Option<Action>
  {
    var d := ShouldExit(p, price);
    if d.exit then Some(CloseAction(p, price, d.reason))
    else if ShouldUpdateHighLow(p, price) then Some(UpdateAction(p, price))
    else None
  }

  function Actions(ps: seq<Position>, prices: map<string, real>, cached: map<string, real>): seq<Action>
  {
    if ps == [] then []
    else
      var a := Classify(ps[0], ResolvePrice(prices, cached, ps[0]).value);
      (if a.Some? then [a.value] else []) + Actions(ps[1..], prices, cached)
  }

  /**
   * Every position is classified exactly once: it is scheduled for closing
   * iff the exit rule fires at its price, for a watermark update iff it
   * does not and a watermark would move, and otherwise left alone.
   */
  lemma {:induction false} ActionsSpec(ps: seq<Position>, prices: map<string, real>, cached: map<string, real>, i: int)
    requires 0 <= i < |ps| && DistinctIds(ps)
    ensures var price := ResolvePrice(prices, cached, ps[i]).value;
      && ((exists a :: a in Actions(ps, prices, cached) && a.position.id == ps[i].id) <==> Classify(ps[i], price).Some?)
      && (forall a :: a in Actions(ps, prices, cached) && a.position.id == ps[i].id ==> Some(a) == Classify(ps[i], price))
  {
    var rest := Actions(ps[1..], prices, cached);
    var a0 := Classify(ps[0], ResolvePrice(prices, cached, ps[0]).value);
    assert Actions(ps, prices, cached) == (if a0.Some? then [a0.value] else []) + rest;
    ActionsFrom(ps[1..], prices, cached);
    if i == 0 {
      forall a | a in rest
        ensures a.position.id != ps[0].id
      {
        var k :| 0 <= k < |ps[1..]| && a.position == ps[1..][k];
        assert ps[k + 1] == ps[1..][k];
      }
    } else {
      assert DistinctIds(ps[1..]);
      ActionsSpec(ps[1..], prices, cached, i - 1);
      assert ps[1..][i - 1] == ps[i];
      if a0.Some? {
        assert a0.value.position == ps[0];
      }
    }
  }

  /** Every recorded action concerns one of the positions. */
  lemma {:induction false} ActionsFrom(ps: seq<Position>, prices: map<string, real>, cached: map<string, real>)
    ensures forall a :: a in Actions(ps, prices, cached) ==> exists k :: 0 <= k < |ps| && a.position == ps[k]
  {
    if ps != [] {
      ActionsFrom(ps[1..], prices, cached);
      var a0 := Classify(ps[0], ResolvePrice(prices, cached, ps[0]).value);
      forall a | a in Actions(ps, prices, cached)
        ensures exists k :: 0 <= k < |ps| && a.position == ps[k]
      {
        if a0.Some? && a == a0.value {
          assert a.position == ps[0];
        } else {
          assert a in Actions(ps[1..], prices, cached);
          var k :| 0 <= k < |ps[1..]| && a.position == ps[1..][k];
          assert a.position == ps[k + 1];
        }
      }
    }
  }

  /** The sequential monitoring pass: one classification per active position, in order. */
  method ClassifyPositions(ps: seq<Position>, prices: map<string, real>, cached: map<string, real>)
    returns (toClose: seq<Action>, toUpdate: seq<Action>)
    ensures toClose == Filter(Actions(ps, prices, cached), true)
    ensures toUpdate == Filter(Actions(ps, prices, cached), false)
  {
    toClose := [];
    toUpdate := [];
    var i := |ps|;
    while i > 0
      invariant 0 <= i <= |ps|
      invariant toClose == Filter(Actions(ps[i..], prices, cached), true)
      invariant toUpdate == Filter(Actions(ps[i..], prices, cached), false)
    {
      i := i - 1;
      var price := ResolvePrice(prices, cached, ps[i]).value;
      var a := Classify(ps[i], price);
      var head := if a.Some? then [a.value] else [];
      var tail := Actions(ps[i + 1..], prices, cached);
      assert ps[i..][1..] == ps[i + 1..];
      assert Actions(ps[i..], prices, cached) == head + tail;
      FilterAppend(head, tail, true);
      FilterAppend(head, tail, false);
      if a.Some? {
        assert head[1..] == [];
      }
      if a.Some? {
        if a.value.CloseAction? {
          toClose := [a.value] + toClose;
        } else {
          toUpdate := [a.value] + toUpdate;
        }
      }
    }
  }

  /** The close actions (`closing`) or the update actions (not `closing`), in order. */
  function Filter(actions: seq<Action>, closing: bool): (r: seq<Action>)
    ensures forall a :: a in r <==> a in actions && a.CloseAction? == closing
  {
    if actions == [] then []
    else (if actions[0].CloseAction? == closing then [actions[0]] else []) + Filter(actions[1..], closing)
  }

  lemma {:induction false} FilterAppend(xs: seq<Action>, ys: seq<Action>, closing: bool)
    ensures Filter(xs + ys, closing) == Filter(xs, closing) + Filter(ys, closing)
  {
    if xs != [] {
      var head := if xs[0].CloseAction? == closing then [xs[0]] else [];
      assert (xs + ys)[0] == xs[0] && (xs + ys)[1..] == xs[1..] + ys;
      assert Filter(xs + ys, closing) == head + Filter(xs[1..] + ys, closing);
      FilterAppend(xs[1..], ys, closing);
      assert Filter(xs, closing) == head + Filter(xs[1..], closing);
      assert head + (Filter(xs[1..], closing) + Filter(ys, closing)) == (head + Filter(xs[1..], closing)) + Filter(ys, closing);
    } else {
      assert xs + ys == ys;
    }
  }

  /** The watermarks the monitor writes for an update action: `max(high or entry, p)` and `min(low or entry, p)`. */
  function MonitorWatermarks(p: Position, price: real): (r: (real, real))
  {
    (Max(Or(p.highestPrice, p.entryPrice), price), Min(Or(p.lowestPrice, p.entryPrice), price))
  }

  function Max(a: real, b: real): real { if a >= b then a else b }
  function Min(a: real, b: real): real { if a <= b then a else b }

  /** The monitor's new watermarks bracket the price and never move inwards from a truthy old value. */
  lemma MonitorWatermarksSpec(p: Position, price: real)
    ensures var (h, l) := MonitorWatermarks(p, price);
      && l <= price <= h
      && (NonZero(p.highestPrice) ==> h >= p.highestPrice.value)
      && (NonZero(p.lowestPrice) ==> l <= p.lowestPrice.value)
      && (!NonZero(p.highestPrice) ==> h == Max(p.entryPrice, price))
      && (!NonZero(p.lowestPrice) ==> l == Min(p.entryPrice, price))
  {
  }

  /** Minutes per bar and bar count chosen for a gap of `rangeMs` milliseconds. */
  function KlineWindow(rangeMs: int): (w: (nat, nat))
  {
    if rangeMs <= 3600000 then (1, 1000)
    else if rangeMs <= 8 * 3600000 then (1, 500)
    else if rangeMs <= 24 * 3600000 then (5, 500)
    else (15, 500)
  }

  /** The chosen bars cover any gap up to 125 hours, and no gap beyond it. */
  lemma KlineWindowCovers(rangeMs: int)
    ensures rangeMs <= 125 * 3600000 ==> KlineWindow(rangeMs).0 * KlineWindow(rangeMs).1 * 60000 >= rangeMs
    ensures rangeMs > 125 * 3600000 ==> KlineWindow(rangeMs).0 * KlineWindow(rangeMs).1 * 60000 < rangeMs
  {
  }

  // ---------------------------------------------------------------------
  // The positions table
  // ---------------------------------------------------------------------

  class PositionBook {
    /** id -> row */
    var rows: map<string, Position>
    /** ids whose close is in progress (the module-level `_closing_positions`) */
    var closing: set<string>

    predicate Valid()
      reads this
    {
      forall k :: k in rows ==> rows[k].id == k
    }

    constructor (initial: map<string, Position>)
      requires forall k :: k in initial ==> initial[k].id == k
      ensures Valid() && rows == initial && closing == {}
    {
      rows := initial;
      closing := {};
    }

    /**
     * `_check_position` on a row and a price: the watermarks are updated
     * and the check time stamped, then the decision is taken on the old
     * watermarks.
     */
    method CheckPosition(id: string, price: real, now: int) returns (outcome: CheckOutcome)
      requires Valid() && id in rows
      modifies this
      ensures Valid()
      ensures rows == old(rows)[id := Watermarked(old(rows)[id], price, now)]
      ensures outcome == CheckDecision(old(rows)[id], price)
      ensures closing == old(closing)
    {
      var p := rows[id];
      var highForTrailing := p.highestPrice;
      var lowForTrailing := p.lowestPrice;
      var q := p;
      if q.highestPrice.None? || price > q.highestPrice.value {
        q := q.(highestPrice := Some(price));
      }
      if q.lowestPrice.None? || price < q.lowestPrice.value {
        q := q.(lowestPrice := Some(price));
      }
      q := q.(lastCheckTime := Some(now));
      rows := rows[id := q];
      if p.entryPrice == 0.0 {
        return EntryPriceZero;
      }
      if StopLossHit(p, price) {
        return CloseFor("stop_loss");
      }
      if p.side == Buy && NonZero(highForTrailing) && price <= highForTrailing.value * (1.0 - p.trailingExitPct) {
        return CloseFor("trailing_stop");
      }
      if p.side == Sell && NonZero(lowForTrailing) && price >= lowForTrailing.value * (1.0 + p.trailingExitPct) {
        return CloseFor("trailing_stop");
      }
      return Keep;
    }

    /**
     * The `_closing_positions` guard: a close proceeds only for a row that
     * is not CLOSED and not already being closed, and marks it as in
     * progress.
     */
    method BeginClose(id: string) returns (acquired: bool)
      requires id in rows
      modifies this
      ensures acquired <==> old(rows)[id].status != Closed && id !in old(closing)
      ensures closing == if acquired then old(closing) + {id} else old(closing)
      ensures rows == old(rows)
    {
      if rows[id].status == Closed || id in closing {
        return false;
      }
      closing := closing + {id};
      return true;
    }

    /** The `finally` of the guard. */
    method EndClose(id: string)
      modifies this
      ensures closing == old(closing) - {id} && rows == old(rows)
    {
      closing := closing - {id};
    }

    /** No other row of the table is an ACTIVE position on `symbol`. */
    predicate NoOtherActive(id: string, symbol: string)
      reads this
    {
      forall k :: k in rows && k != id ==> !(rows[k].status == Active && rows[k].symbol == symbol)
    }

    /** The branch of `_close_position` for a position the exchange no longer lists. */
    method CloseGone(id: string, exitPrice: real, reason: string, now: int, recentClose: Option<CloseLog>,
                     confirm1: Option<seq<ExchangeClient.RawPosition>>, confirm2: Option<seq<ExchangeClient.RawPosition>>,
                     hasSystemRecord: bool)
      returns (outcome: CloseOutcome)
      requires Valid() && id in rows
      modifies this
      ensures Valid() && closing == old(closing)
      ensures var (o, q) := GoneResult(old(rows)[id], exitPrice, reason, now, recentClose, confirm1, confirm2, hasSystemRecord);
        outcome == o && rows == old(rows)[id := q]
    {
      var p := rows[id];
      if recentClose.Some? {
        var systemReason := if recentClose.value.reason.Some? then recentClose.value.reason.value else reason;
        var price := if exitPrice != 0.0 then exitPrice else Or(recentClose.value.price, p.entryPrice);
        var (q, used) := FinalizeMissing(p, Some(price), systemReason, hasSystemRecord, now);
        rows := rows[id := q];
        outcome := FinalizedMissing(used);
      } else if !ConfirmedAbsent(PresenceOf(confirm1, p.symbol, p.side), PresenceOf(confirm2, p.symbol, p.side)) {
        outcome := StillOpen;
      } else {
        var (q, used) := FinalizeMissing(p, Some(if exitPrice != 0.0 then exitPrice else p.entryPrice),
                                         "external_closed", hasSystemRecord, now);
        rows := rows[id := q];
        outcome := FinalizedMissing(used);
      }
    }

    /**
     * The branch of `_close_position` for a position the exchange lists:
     * the closing order, then the unsubscribe when the feed is on and no
     * other ACTIVE row trades the symbol.
     */
    method CloseByOrder(id: string, reason: string, now: int, call: MarketOrderCall, order: CloseOrder, wsEnabled: bool)
      returns (outcome: CloseOutcome, unsubscribe: bool)
      requires Valid() && id in rows
      modifies this
      ensures Valid() && closing == old(closing)
      ensures var (o, q) := OrderResult(old(rows)[id], reason, now, call, order);
        outcome == o && rows == old(rows)[id := q]
      ensures unsubscribe <==> outcome == ClosedByOrder && wsEnabled && NoOtherActive(id, old(rows)[id].symbol)
    {
      var p := rows[id];
      unsubscribe := false;
      if !SignatureAccepts(call) {
        outcome := CloseFailed;
      } else {
        match order {
          case OrderFailed =>
            outcome := CloseFailed;
          case OrderFilled(fillPrice, quantity) =>
            rows := rows[id := p.(status := Closed, exitPrice := Some(fillPrice),
                                  exitQuantity := Some(Or(quantity, p.entryQuantity)),
                                  exitTime := Some(now), exitReason := Some(reason))];
            outcome := ClosedByOrder;
            unsubscribe := wsEnabled && NoOtherActive(id, p.symbol);
        }
      }
    }

    /**
     * `_close_position`, with the position fetches' `is None` guards
     * working: a row already closed or already being closed is left alone,
     * any other row ends as `CloseResult` says, and the guard is released
     * on every path.  After a close by order the symbol is unsubscribed
     * when the WebSocket feed is on and no other ACTIVE row trades it.
     */
    method ClosePosition(id: string, exitPrice: real, reason: string, now: int,
                         reply: Option<seq<ExchangeClient.RawPosition>>, recentClose: Option<CloseLog>,
                         confirm1: Option<seq<ExchangeClient.RawPosition>>, confirm2: Option<seq<ExchangeClient.RawPosition>>,
                         hasSystemRecord: bool, call: MarketOrderCall, order: CloseOrder, wsEnabled: bool)
      returns (outcome: CloseOutcome, unsubscribe: bool)
      requires Valid() && id in rows
      modifies this
      ensures Valid()
      ensures closing == old(closing)
      ensures var p := old(rows)[id];
        if p.status == Closed then outcome == AlreadyClosed && rows == old(rows)
        else if id in old(closing) then outcome == InProgress && rows == old(rows)
        else
          var (o, q) := CloseResult(p, exitPrice, reason, now, reply, recentClose, confirm1, confirm2, hasSystemRecord, call, order);
          outcome == o && rows == old(rows)[id := q]
      ensures unsubscribe <==> outcome == ClosedByOrder && wsEnabled && NoOtherActive(id, old(rows)[id].symbol)
    {
      var acquired := BeginClose(id);
      if !acquired {
        if rows[id].status == Closed {
          return AlreadyClosed, false;
        }
        return InProgress, false;
      }
      var p := rows[id];
      var presence := PresenceOf(reply, p.symbol, p.side);
      unsubscribe := false;
      if presence == Unknown {
        outcome := StatusUnknown;
      } else if presence == Absent {
        outcome := CloseGone(id, exitPrice, reason, now, recentClose, confirm1, confirm2, hasSystemRecord);
      } else {
        outcome, unsubscribe := CloseByOrder(id, reason, now, call, order, wsEnabled);
      }
      EndClose(id);
    }

    /**
     * `_close_position` as written, sending `CloseCallAsWritten`: a
     * position still open on the exchange is never closed by order; the
     * close fails, the row stays as it was and nothing is unsubscribed.
     */
    method ClosePositionAsWritten(id: string, exitPrice: real, reason: string, now: int,
                                  reply: Option<seq<ExchangeClient.RawPosition>>, recentClose: Option<CloseLog>,
                                  confirm1: Option<seq<ExchangeClient.RawPosition>>, confirm2: Option<seq<ExchangeClient.RawPosition>>,
                                  hasSystemRecord: bool, order: CloseOrder, wsEnabled: bool)
      returns (outcome: CloseOutcome)
      requires Valid() && id in rows
      modifies this
      ensures Valid() && closing == old(closing)
      ensures outcome != ClosedByOrder
      ensures var p := old(rows)[id];
        p.status != Closed && id !in old(closing) && PresenceOf(reply, p.symbol, p.side) == Present ==>
          outcome == CloseFailed && rows == old(rows)
    {
      var p := rows[id];
      CloseCallRefusedAsWritten(p.side);
      if p.status != Closed {
        CloseResultSpec(p, exitPrice, reason, now, reply, recentClose, confirm1, confirm2, hasSystemRecord, CloseCallAsWritten(p.side), order);
      }
      var unsubscribe;
      outcome, unsubscribe := ClosePosition(id, exitPrice, reason, now, reply, recentClose, confirm1, confirm2,
                                            hasSystemRecord, CloseCallAsWritten(p.side), order, wsEnabled);
    }

    /** One position of the merge: closed as "duplicate_merged" when its group keeps another. */
    method MergeOne(listed: seq<Position>, p: Position, defaultTrailing: real, defaultStop: real, now: int)
      requires p in listed
      modifies this
      ensures closing == old(closing)
      ensures rows == if MergeCloses(listed, p, defaultTrailing, defaultStop)
        then old(rows)[p.id := p.(status := Closed, exitTime := Some(now), exitReason := Some("duplicate_merged"))]
        else old(rows)
    {
      if MergeCloses(listed, p, defaultTrailing, defaultStop) {
        rows := rows[p.id := p.(status := Closed, exitTime := Some(now), exitReason := Some("duplicate_merged"))];
      }
    }

    /**
     * The duplicate merge of `sync_positions_from_binance` over the listed
     * active positions: in every (symbol, side) group with more than one
     * position, all but the keeper become CLOSED with reason
     * "duplicate_merged".
     */
    method MergeDuplicates(active: seq<string>, defaultTrailing: real, defaultStop: real, now: int)
      requires Valid()
      requires forall i :: 0 <= i < |active| ==> active[i] in rows && rows[active[i]].status == Active
      requires forall i, j :: 0 <= i < j < |active| ==> active[i] != active[j]
      modifies this
      ensures Valid() && closing == old(closing) && rows.Keys == old(rows).Keys
      ensures rows == MergedRows(old(rows), ListedRows(old(rows), active), active, defaultTrailing, defaultStop, now)
    {
      var listed := ListedRows(rows, active);
      ghost var before := rows;
      var i := 0;
      while i < |active|
        invariant 0 <= i <= |active|
        invariant closing == old(closing)
        invariant rows == MergedRows(before, listed, active[..i], defaultTrailing, defaultStop, now)
      {
        var p := listed[i];
        assert p == before[active[i]] && p.id == active[i];
        MergedRowsSnoc(before, listed, active, i, defaultTrailing, defaultStop, now);
        MergeOne(listed, p, defaultTrailing, defaultStop, now);
        i := i + 1;
      }
      assert active[..|active|] == active;
      MergedRowsKeepIds(before, listed, active, defaultTrailing, defaultStop, now);
    }
  }

  /** The rows of the listed ids, in listing order (what `get_active_positions` returns). */
  function ListedRows(rows: map<string, Position>, ids: seq<string>): (ps: seq<Position>)
    requires forall i :: 0 <= i < |ids| ==> ids[i] in rows
    ensures |ps| == |ids| && forall i :: 0 <= i < |ids| ==> ps[i] == rows[ids[i]]
  {
    if ids == [] then [] else [rows[ids[0]]] + ListedRows(rows, ids[1..])
  }

  /** The table after the merge has visited `ids`, deciding every position on the full listing. */
  function MergedRows(rows: map<string, Position>, listing: seq<Position>, ids: seq<string>,
                      defaultTrailing: real, defaultStop: real, now: int): map<string, Position>
  {
    if ids == [] then rows
    else
      var before := MergedRows(rows, listing, ids[..|ids| - 1], defaultTrailing, defaultStop, now);
      var id := ids[|ids| - 1];
      if id in rows && rows[id] in listing && rows[id].id == id && MergeCloses(listing, rows[id], defaultTrailing, defaultStop)
      then before[id := rows[id].(status := Closed, exitTime := Some(now), exitReason := Some("duplicate_merged"))]
      else before
  }

  /** The merge changes no key and no row's id. */
  lemma {:induction false} MergedRowsKeepIds(rows: map<string, Position>, listing: seq<Position>, ids: seq<string>,
                                            defaultTrailing: real, defaultStop: real, now: int)
    requires forall k :: k in rows ==> rows[k].id == k
    ensures var after := MergedRows(rows, listing, ids, defaultTrailing, defaultStop, now);
      after.Keys == rows.Keys && forall k :: k in after ==> after[k].id == k
  {
    if ids != [] {
      MergedRowsKeepIds(rows, listing, ids[..|ids| - 1], defaultTrailing, defaultStop, now);
    }
  }

  /** One step of the merge loop: visiting the listed position at `i` closes it iff the merge closes it. */
  lemma MergedRowsSnoc(rows: map<string, Position>, listing: seq<Position>, ids: seq<string>, i: int,
                       defaultTrailing: real, defaultStop: real, now: int)
    requires 0 <= i < |ids| == |listing| && ids[i] in rows && listing[i] == rows[ids[i]] && rows[ids[i]].id == ids[i]
    ensures var p := listing[i];
      var before := MergedRows(rows, listing, ids[..i], defaultTrailing, defaultStop, now);
      p in listing &&
      MergedRows(rows, listing, ids[..i + 1], defaultTrailing, defaultStop, now) ==
        if MergeCloses(listing, p, defaultTrailing, defaultStop)
        then before[p.id := p.(status := Closed, exitTime := Some(now), exitReason := Some("duplicate_merged"))]
        else before
  {
    assert ids[..i + 1][..i] == ids[..i];
    assert ids[..i + 1][i] == ids[i];
    assert listing[i] in listing;
  }

  /** Each listed row ends closed-as-duplicate exactly when the merge closes it; unlisted rows are untouched. */
  lemma {:induction false} MergedRowsAt(rows: map<string, Position>, listing: seq<Position>, ids: seq<string>,
                                        defaultTrailing: real, defaultStop: real, now: int, k: string)
    requires forall i, j :: 0 <= i < j < |ids| ==> ids[i] != ids[j]
    requires k in rows
    ensures var after := MergedRows(rows, listing, ids, defaultTrailing, defaultStop, now);
      && k in after
      && after[k] == if k in ids && rows[k] in listing && rows[k].id == k && MergeCloses(listing, rows[k], defaultTrailing, defaultStop)
                     then rows[k].(status := Closed, exitTime := Some(now), exitReason := Some("duplicate_merged"))
                     else rows[k]
  {
    if ids != [] {
      var init := ids[..|ids| - 1];
      InitMember(ids);
      MergedRowsAt(rows, listing, init, defaultTrailing, defaultStop, now, k);
      if k == ids[|ids| - 1] {
        assert k !in init;
      }
    }
  }

  lemma InitMember<T>(xs: seq<T>)
    requires xs != []
    ensures forall x :: x in xs <==> x in xs[..|xs| - 1] || x == xs[|xs| - 1]
  {
    assert xs == xs[..|xs| - 1] + [xs[|xs| - 1]];
  }

  /** The keeper of a listed position's group is listed and stays as it was. */
  lemma MergeKeeperStays(rows: map<string, Position>, active: seq<string>, defaultTrailing: real, defaultStop: real,
                         now: int, i: int)
    requires forall k :: k in rows ==> rows[k].id == k
    requires forall j :: 0 <= j < |active| ==> active[j] in rows && rows[active[j]].status == Active
    requires forall j, l :: 0 <= j < l < |active| ==> active[j] != active[l]
    requires 0 <= i < |active|
    ensures var listing := ListedRows(rows, active);
      var after := MergedRows(rows, listing, active, defaultTrailing, defaultStop, now);
      var p := rows[active[i]];
      var keeper := Keeper(Group(listing, p.symbol, p.side), defaultTrailing, defaultStop);
      keeper.id in after && after[keeper.id] == rows[keeper.id] && after[keeper.id].status == Active
  {
    var listing := ListedRows(rows, active);
    var p := rows[active[i]];
    assert p == listing[i];
    var g := Group(listing, p.symbol, p.side);
    assert p in g;
    var keeper := Keeper(g, defaultTrailing, defaultStop);
    assert keeper in listing;
    var kj :| 0 <= kj < |listing| && listing[kj] == keeper;
    assert keeper == rows[active[kj]] && keeper.id == active[kj];
    MergedRowsAt(rows, listing, active, defaultTrailing, defaultStop, now, keeper.id);
    assert Group(listing, keeper.symbol, keeper.side) == g;
  }

  lemma TwoMembers<T>(xs: seq<T>, a: T, b: T)
    requires a in xs && b in xs && a != b
    ensures |xs| > 1
  {
  }

  /** Every other member of a group with a keeper ends CLOSED as "duplicate_merged". */
  lemma MergeClosesOther(rows: map<string, Position>, active: seq<string>, defaultTrailing: real, defaultStop: real,
                         now: int, g: seq<Position>, q: Position)
    requires forall k :: k in rows ==> rows[k].id == k
    requires forall j :: 0 <= j < |active| ==> active[j] in rows
    requires forall j, l :: 0 <= j < l < |active| ==> active[j] != active[l]
    requires q in ListedRows(rows, active) && g == Group(ListedRows(rows, active), q.symbol, q.side)
    requires q.id != Keeper(g, defaultTrailing, defaultStop).id
    ensures var after := MergedRows(rows, ListedRows(rows, active), active, defaultTrailing, defaultStop, now);
      q.id in after && after[q.id] == q.(status := Closed, exitTime := Some(now), exitReason := Some("duplicate_merged"))
  {
    var listing := ListedRows(rows, active);
    var qj :| 0 <= qj < |listing| && listing[qj] == q;
    assert q == rows[active[qj]] && q.id == active[qj] && q.id in active;
    TwoMembers(g, q, Keeper(g, defaultTrailing, defaultStop));
    assert MergeCloses(listing, rows[q.id], defaultTrailing, defaultStop);
    MergedRowsAt(rows, listing, active, defaultTrailing, defaultStop, now, q.id);
  }

  /**
   * After the merge, every (symbol, side) group of the listed active
   * positions keeps exactly its keeper ACTIVE; when the group has several
   * positions every other one is CLOSED as "duplicate_merged", and a group
   * of one is untouched.
   */
  lemma MergeKeepsOnePerGroup(rows: map<string, Position>, active: seq<string>, defaultTrailing: real, defaultStop: real,
                              now: int, i: int)
    requires forall k :: k in rows ==> rows[k].id == k
    requires forall j :: 0 <= j < |active| ==> active[j] in rows && rows[active[j]].status == Active
    requires forall j, l :: 0 <= j < l < |active| ==> active[j] != active[l]
    requires 0 <= i < |active|
    ensures var listing := ListedRows(rows, active);
      var after := MergedRows(rows, listing, active, defaultTrailing, defaultStop, now);
      var p := rows[active[i]];
      var g := Group(listing, p.symbol, p.side);
      var keeper := Keeper(g, defaultTrailing, defaultStop);
      && keeper.id in after && after[keeper.id] == rows[keeper.id] && after[keeper.id].status == Active
      && (forall q :: q in g && q.id != keeper.id ==>
            q.id in after && after[q.id] == q.(status := Closed, exitTime := Some(now), exitReason := Some("duplicate_merged")))
      && (|g| == 1 ==> after[p.id] == p)
  {
    var listing := ListedRows(rows, active);
    var after := MergedRows(rows, listing, active, defaultTrailing, defaultStop, now);
    var p := rows[active[i]];
    assert p == listing[i];
    var g := Group(listing, p.symbol, p.side);
    var keeper := Keeper(g, defaultTrailing, defaultStop);
    MergeKeeperStays(rows, active, defaultTrailing, defaultStop, now, i);
    forall q | q in g && q.id != keeper.id
      ensures q.id in after && after[q.id] == q.(status := Closed, exitTime := Some(now), exitReason := Some("duplicate_merged"))
    {
      MergeClosesOther(rows, active, defaultTrailing, defaultStop, now, g, q);
    }
    if |g| == 1 {
      LoneKeeper(g, p, defaultTrailing, defaultStop);
    }
  }

  /** In a group of one, the keeper is its only member. */
  lemma LoneKeeper(g: seq<Position>, p: Position, defaultTrailing: real, defaultStop: real)
    requires |g| == 1 && p in g
    ensures Keeper(g, defaultTrailing, defaultStop) == p
  {
    assert g == [g[0]];
  }
}
