# A verified model of a Binance futures trading bot's decision core

This bot reads exchange announcements and turns them into trade plans.
Manual plans are executed at their listing time. The bot then watches
the open futures positions and closes them on a stop-loss or a trailing
stop. Around that core it back-tests plans and measures per-window
returns after an announcement. It also runs risk checks before
trading, keeps price caches fed by REST and a WebSocket stream, edits
its `.env` settings through an HTTP route, and mails a daily report.

This Dafny project models that decision core and proves what it
promises. Conventions:
- Exact decimals (`Decimal`) are `real`s. The quantity text sent with
  an order uses a coefficient/exponent pair, so that its printed form is
  exact.
- Times are integer milliseconds.
- Database tables are sequences and maps, and the services that update
  them in place are classes.
- The exchange, the clock, the WebSocket, the `.env` file and Python's
  formatting are parameters: oracle functions, replies given as values,
  and `Option`s for failures.

Modules, one per source component:

| module | models |
|---|---|
| `Common` | sides, ASCII upper-casing, `str.strip`, `split`/`join`, digit strings |
| `ExitEngine` | exit rule, watermarks, close path, realised PnL, duplicate merge, monitor pass (`position_service.py`) |
| `Execution` | order sizing, slippage, LIMIT/market placement, fill extraction, manual-plan margin check (`execution_service.py`) |
| `Scheduler` | due-plan claim and execution, precision pass, precise wait, monitor intervals (`scheduler.py`) |
| `ManualPlans` | manual-plan store: create, list, pending, due, mark status, cancel, claim |
| `TradePlans` | `ensure_plan`, `activate_plan`, `complete_plan`, `approve_announcement` |
| `PriceFeed` | WebSocket price service: subscription set, connections, 5 s cache |
| `ExchangeClient` | step flooring and quantity text, positions transform, symbol info, price and balance caches (`binance_service.py`) |
| `Risk` | `check_trading_allowed` and its four checks |
| `Analytics` | the `compute_plan` back-test |
| `WindowReturns` | window labels, bar lookup, `compute_for_announcement` |
| `Announcements` | symbol extraction, `_jp` relabelling, `sync_from_sources` |
| `Backfill` | the history backfill |
| `EnvLines`, `SettingsApi` | the `.env` line format, the settings route, the exit-parameter route, the trailing-stop display |
| `LoggingConfig` | level normalisation, console filter, `log_key_event` |
| `Config` | `parse_windows`, `_normalize_empty_values` |
| `Report` | `build_report` |

## Model

| member | source | states |
|---|---|---|
| ExitEngine.ShouldExit | backend/app/services/position_service.py:369-407 | the decision is one of (false, ""), (true, "stop_loss"), (true, "trailing_stop") |
| ExitEngine.StopLossFiresIff | backend/app/services/position_service.py:379-387 | the reason is "stop_loss" iff BUY price <= entry*(1-sl) or SELL price >= entry*(1+sl), whatever the trailing stop says |
| ExitEngine.TrailingFiresIff | backend/app/services/position_service.py:389-407 | "trailing_stop" iff the stop-loss level is uncrossed and the trailing level from the high (BUY) or low (SELL), else the entry price, is crossed; otherwise no exit |
| ExitEngine.ExitMonotone | backend/app/services/position_service.py:379-407 | a BUY that exits at a price exits at every lower price, a SELL at every higher price |
| ExitEngine.ShouldUpdateIff | backend/app/services/position_service.py:409-415 | `_should_update_high_low` is false exactly when both watermarks exist and the price lies between them |
| ExitEngine.WatermarksBracketPrice | backend/app/services/position_service.py:437-456 | after the update both watermarks exist, high >= price >= low, the high never falls and the low never rises |
| ExitEngine.CheckAgreesWithShouldExit | backend/app/services/position_service.py:369-407 | with both watermarks set and non-zero, `_check_position` and `_should_exit_position` take the same decision (`_check_position` at lines 437-438 and 490-530) |
| ExitEngine.CheckSkipsTrailingWithoutHigh | backend/app/services/position_service.py:392-398 | without a high, the fast predicate trails from the entry price and closes a BUY that `_check_position` keeps (`_check_position` at lines 437-438 and 502) |
| ExitEngine.TrailingUsesOldHigh | backend/app/services/position_service.py:437-448 | the trailing test uses the pre-update high, so a price that sets a new high never triggers it (the high is updated at line 502) |
| ExitEngine.FinalizeMissingSpec | backend/app/services/position_service.py:60-70 | always CLOSED; "external_closed" becomes "not_executed" iff no system record exists; exit price is given, else stored, else entry; exit quantity defaults to 0; nothing else changes |
| ExitEngine.PresenceOf | backend/app/services/position_service.py:572-575 | a failed fetch gives an unknown presence, not an absent one |
| ExitEngine.PresenceAgreesOnReplies | backend/app/services/binance_service.py:1140-1219 | the presence as written and as intended agree on every answered fetch |
| ExitEngine.OutageFinalizesPosition | backend/app/services/position_service.py:72-85 | as written, an outage during all three fetches finalizes an open position as closed externally (the dead `is None` guards at lines 572-576 and 629-639) |
| ExitEngine.FinalizeNeedsThreeAnswers | backend/app/services/position_service.py:72-85 | as intended, a position is finalized as gone only when all three fetches answered and none listed it (the three fetches at lines 586-591 and 635-639) |
| ExitEngine.RealizedPnlSpec | backend/app/services/position_service.py:1302-1317 | 0 without exit price, exit quantity or positive quantity; else (exit-entry)*qty for BUY and (entry-exit)*qty for SELL; a BUY gains iff it exits above entry |
| ExitEngine.PnlQuantityFallback | backend/app/services/position_service.py:1307-1310 | the quantity falls back to the entry quantity when the exit quantity is not positive |
| ExitEngine.PnlSideSymmetry | backend/app/services/position_service.py:1312-1317 | the same trade on the other side has the negated PnL |
| ExitEngine.LatestIndex | backend/app/services/position_service.py:941-948 | `max(key=entry_time)`: no position enters later than the one chosen, and it is the first such |
| ExitEngine.KeeperIsLatestPreferred | backend/app/services/position_service.py:928-949 | the keeper is customised (a parameter differs from the default by >= 0.0001) whenever any position is, and none it competes with entered later |
| ExitEngine.Group | backend/app/services/position_service.py:906-912 | the active positions of one (symbol, side) key, in listing order |
| ExitEngine.PositionBook.MergeDuplicates | backend/app/services/position_service.py:914-955 | every listed position the merge decides to close becomes CLOSED "duplicate_merged" at `now`; other rows are unchanged |
| ExitEngine.MergeKeepsOnePerGroup | backend/app/services/position_service.py:914-955 | after the merge each (symbol, side) group keeps exactly its keeper ACTIVE, all others CLOSED as "duplicate_merged"; a group of one is untouched |
| ExitEngine.ResolvePrice | backend/app/services/position_service.py:164-175 | the batch price if truthy, else the cached price if truthy, else the entry price |
| ExitEngine.MissingBatchPriceSkipsPosition | backend/app/services/position_service.py:224-240 | as written, a position without a batch price is never checked even past its stop-loss; as intended it is checked at the entry price (the batch fetch at lines 164-175) |
| ExitEngine.ResolvePriceAgrees | backend/app/services/position_service.py:164-168 | both resolutions agree whenever the batch has a non-zero price |
| ExitEngine.ActionsSpec | backend/app/services/position_service.py:224-240 | each position is classified once: close iff the exit rule fires at its price, update iff it does not and a watermark would move |
| ExitEngine.ActionsFrom | backend/app/services/position_service.py:224-240 | every recorded action concerns one of the positions |
| ExitEngine.ClassifyPositions | backend/app/services/position_service.py:222-236 | the monitor loop's close and update lists are the close and update actions of `Actions`, in order (lists set up at lines 157-160) |
| ExitEngine.MonitorWatermarksSpec | backend/app/services/position_service.py:275-277 | the monitor's new watermarks bracket the price and never move inwards from a truthy old value (and lines 345-346) |
| ExitEngine.KlineWindowCovers | backend/app/services/position_service.py:288-305 | the chosen bar interval and count cover every gap up to 125 hours and no longer gap |
| ExitEngine.PositionBook.CheckPosition | backend/app/services/position_service.py:417-530 | updates the watermarks and stamps the check time, then decides on the old watermarks |
| ExitEngine.PositionBook.BeginClose | backend/app/services/position_service.py:554-563 | the guard is acquired iff the row is not CLOSED and not already closing, and then marks it as closing |
| ExitEngine.PositionBook.EndClose | backend/app/services/position_service.py:704-706 | the `finally` removes the id from the closing set |
| ExitEngine.CloseCallRefusedAsWritten | backend/app/services/position_service.py:694-702 | the close call as written names `position_side` (LONG or SHORT), which `place_market_order(symbol, side, quantity, reduce_only=False)` (binance_service.py:719) does not take; the reduce-only call without it is taken |
| ExitEngine.CloseResultSpec | backend/app/services/position_service.py:550-810 | by route: unknown presence leaves the row; not confirmed gone twice keeps it ACTIVE; confirmed gone finalizes it as external_closed or not_executed; a recent system close finalizes it with that close's reason and price (lines 597-626); a listed position is CLOSED at the order's fill iff the call is taken and the order fills, else CloseFailed with the row unchanged; the row is CLOSED exactly on the finalize and order outcomes and keeps its id |
| ExitEngine.PositionBook.CloseGone | backend/app/services/position_service.py:587-648 | the not-listed branch leaves the table as `GoneResult` says, changing only that row |
| ExitEngine.PositionBook.CloseByOrder | backend/app/services/position_service.py:692-864 | the order branch leaves the table as `OrderResult` says; the symbol is unsubscribed iff the row closed by order, the WebSocket feed is on and no other ACTIVE row trades the symbol (lines 847-864) |
| ExitEngine.PositionBook.ClosePosition | backend/app/services/position_service.py:550-869 | a CLOSED row is left alone (AlreadyClosed), a row being closed too (InProgress); any other row ends as `CloseResult` says and no other row changes; the guard is released on every path; unsubscribe iff closed by order with the feed on and no other ACTIVE row on the symbol |
| ExitEngine.PositionBook.ClosePositionAsWritten | backend/app/services/position_service.py:694-706 | as written, the call raises before any order: a position the exchange lists is never closed by order; the close fails, the row stays ACTIVE (the rollback at lines 866-869) and nothing is unsubscribed |
| Execution.RoundHalfEven | backend/app/services/execution_service.py:50-52 | Decimal's default rounding: the nearest integer, ties to the even one |
| Execution.Quantize3Error | backend/app/services/execution_service.py:50-52 | quantising to 0.001 lands on the grid and moves a value by at most half a step |
| Execution.Quantize3Idempotent | backend/app/services/execution_service.py:50-52 | values on the grid are unchanged, so quantising twice is quantising once |
| Execution.Quantize3HalfEven | backend/app/services/execution_service.py:50-52 | half-way cases go to the even neighbour (0.0025 to 0.002, 0.0035 to 0.004) |
| Execution.OrderSizeSpec | backend/app/services/execution_service.py:29-52 | fails iff allocation or price is not positive; else quantity is allocation*leverage/price within 0.0005, allocation never exceeds the cap, and the plan's leverage (a real, as plans store Numeric(10,2) or float leverage) wins over the settings' integer one |
| Execution.CheckSlippageSpec | backend/app/services/execution_service.py:54-77 | a non-positive expected price passes with 0; else valid iff slippage <= the plan's maximum, else the settings'; a fill at or better than expected has slippage <= 0 |
| Execution.PollMarket | backend/app/services/execution_service.py:99-119 | at most six queries after a NEW order; a failed query keeps the previous reply; FILLED or PARTIALLY_FILLED stops |
| Execution.MarketOrder | backend/app/services/execution_service.py:96-119 | the polling loop returns the reply and calls of the market path |
| Execution.MarketPlacementCounts | backend/app/services/execution_service.py:96-119 | the market path places exactly one market order and no LIMIT order or cancel |
| Execution.LimitWait | backend/app/services/execution_service.py:160-200 | a fill found while waiting is FILLED; CANCELED, REJECTED or EXPIRED ends the wait |
| Execution.LimitWaitFilled | backend/app/services/execution_service.py:180-187 | a fill returned from the wait has status FILLED |
| Execution.TimeoutPlacementOrders | backend/app/services/execution_service.py:136-213 | as intended, at most one LIMIT and one market order; non-LIMIT sends only the market order; a LIMIT fill sends no market order; otherwise one market order follows |
| Execution.LimitFallbackPlacesLimitAgain | backend/app/services/execution_service.py:79-98 | as written, a timed-out LIMIT order is cancelled and followed by a second LIMIT order, never a market order (the re-read at lines 200-213) |
| Execution.PlaceOrderWithTimeout | backend/app/services/execution_service.py:136-213 | the placement loop returns exactly the intended placement's reply and calls |
| Execution.EntryFillSpec | backend/app/services/execution_service.py:249-270 | succeeds iff FILLED or PARTIALLY_FILLED with positive quantity; price from avgPrice, price, mark; quantity from executedQty, then origQty (with the fields read at lines 387-408) |
| Execution.PlanSymbol | backend/app/services/execution_service.py:215-220 | the announcement's symbol with "USDT" appended, without upper-casing; no symbol is an error |
| Execution.RecordEntrySpec | backend/app/services/execution_service.py:245-290 | corrected record (the line-285 keyword dropped): a position is recorded iff the reply is FILLED or PARTIALLY_FILLED with a positive quantity; it is ACTIVE at the fill price and quantity, with the given symbol and side, both watermarks at the entry price, the plan's exit parameters and no exit; otherwise the fill's error |
| Execution.EntryRecordsNothingAsWritten | backend/app/services/execution_service.py:273-290 | as written, the `max_slippage_pct=plan.max_slippage_pct` keyword (line 285; line 425 in the manual path) raises for every reply, so no position is recorded even when the corrected record would hold one |
| Execution.EntryPositionKeptAtEntry | backend/app/services/execution_service.py:273-290 | the corrected record's position, with positive price and percentages, is ACTIVE, kept by its first check at the entry price, and needs no watermark update there |
| Execution.ManualSizingSpec | backend/app/services/execution_service.py:345-366 | an accepted plan has non-zero leverage and positive price, is sized exactly as `calculate_order_size` with the plan's leverage, needs margin <= 0.99*balance, and lies within 0.0005 of allocation*leverage/price; a sizing error or zero leverage (the Decimal division at line 356) is an error |
| Execution.ManualSizingAccepts | backend/app/services/execution_service.py:345-366 | with positive leverage, price and allocation, an allocation plus the rounding's margin 0.0005*price/leverage within 0.99*balance is accepted |
| Execution.SizeManualPlan | backend/app/services/execution_service.py:344-368 | the result is the plan's sizing (real leverage, zero leverage an error, no precondition), `position_pct` is restored on every path and no other setting changes |
| Scheduler.ClassifySpec | backend/app/core/scheduler.py:150-176 | in milliseconds: plans whose listing has come are skipped; subscribe iff the listing is ahead by at most minutes*60000 ms (minutes a real, as the setting is a float); precision iff ahead by at most threshold*1000 ms; a threshold inside the window implies subscribed |
| Scheduler.StartsRegisters | backend/app/core/scheduler.py:174-176 | each started thread is registered and nothing else: the registry grows by exactly the started ids (registry at line 255) |
| Scheduler.StartsSpec | backend/app/core/scheduler.py:174-176 | each started thread is for a plan within the threshold and without a live thread; every plan within the threshold that is unregistered or whose thread is dead is among the started ids (registry at line 255) |
| Scheduler.PrecisionPass | backend/app/core/scheduler.py:141-176 | outside precision mode changes nothing and starts nothing; in it, subscribes exactly the in-window symbols when the feed is enabled and registers exactly the started threads (registry at line 255) |
| Scheduler.WaitLoopExact | backend/app/core/scheduler.py:191-197 | with exact sleeps the loop exits at the listing time |
| Scheduler.WaitLoopLate | backend/app/core/scheduler.py:191-197 | sleeps overrunning by at most d make the loop exit at most d ms late, never early |
| Scheduler.WaitLoopSleeps | backend/app/core/scheduler.py:191-197 | every short sleep is 5 ms while more than 10 ms remain, else 1 ms |
| Scheduler.PreciseWaitSpec | backend/app/core/scheduler.py:185-199 | the wait never ends before the listing, never sleeps after it, ends exactly on it with exact sleeps, at most d late otherwise |
| Scheduler.PreciseWait | backend/app/core/scheduler.py:185-199 | the loop re-reading the clock computes the end time and sleeps of `PreciseWaitEnd` |
| Scheduler.ClaimThenMark | backend/app/core/scheduler.py:108-139 | a successful claim followed by the outcome write changes that plan to the outcome and nothing else |
| Scheduler.ClaimAndExecute | backend/app/core/scheduler.py:108-139 | only a PENDING plan is claimed; it ends EXECUTED if execution returns, FAILED if it raises; no other plan changes |
| Scheduler.RunDuePlans | backend/app/core/scheduler.py:101-139 | every due plan ends EXECUTED or FAILED by its outcome and leaves the registry; every other plan keeps its status |
| Scheduler.PreciseExecute | backend/app/core/scheduler.py:179-245 | waits for the listing, claims, executes, records the outcome; the registry entry is removed on every path |
| Scheduler.MonitorIntervals.Adjust | backend/app/core/scheduler.py:305-330 | 0.2 s with positions, 1.0 s without; jobs are rescheduled only when their interval changes |
| ManualPlans.NewPlan | backend/app/services/manual_plan_service.py:17-22 | the row stores the given fields (the slippage limit in a nullable column the declared table lacks), else the column defaults, with status PENDING |
| ManualPlans.RequestFields | backend/app/schemas/manual_plan.py:8-17 | `model_dump()` of a create request carries every schema field, the slippage limit included (0.5 when left out), and no status |
| ManualPlans.CreateAsWrittenSpec | backend/app/models/manual_plan.py:11-24 | as declared, the table has no `max_slippage_pct` column: `ManualPlan(**data)` stores the row iff the request does not name it |
| ManualPlans.CreateRequestFailsAsWritten | backend/app/api/routes.py:36-40 | as written, every request built from the schema names the slippage limit, so every API create fails and stores nothing |
| ManualPlans.InsertSorted | backend/app/services/manual_plan_service.py:25 | inserting into a listing-time-sorted list keeps it sorted and adds exactly that plan |
| ManualPlans.SortByListing | backend/app/services/manual_plan_service.py:25-44 | `ORDER BY listing_time`: sorted and a permutation of the input |
| ManualPlans.PendingOf | backend/app/services/manual_plan_service.py:28-35 | exactly the PENDING plans, in order |
| ManualPlans.DueOf | backend/app/services/manual_plan_service.py:37-45 | exactly the PENDING plans with listing time <= now, in order |
| ManualPlans.StatusOfIds | backend/app/services/manual_plan_service.py:48-53 | a plan has a status exactly when a row carries its id |
| ManualPlans.SetStatusEffect | backend/app/services/manual_plan_service.py:48-53 | a status write changes that plan's status only; ids, other statuses and every other field are kept |
| ManualPlans.ManualPlanStore.Create | backend/app/services/manual_plan_service.py:17-22 | corrected create: adds exactly the row `NewPlan` builds from the request (slippage limit included) with a fresh id, and ids stay distinct |
| ManualPlans.ManualPlanStore.MarkStatus | backend/app/services/manual_plan_service.py:48-53 | the table after the write is `SetStatus` of the old one |
| ManualPlans.FinishAfterCloseSpec | backend/app/services/position_service.py:87-112 | after a close only the position's own plan can change; it becomes EXECUTED iff it exists, is not CANCELLED, FAILED or EXECUTED, and no other ACTIVE position belongs to it; ids are kept; finishing twice is finishing once |
| ManualPlans.ManualPlanStore.FinishPlan | backend/app/services/position_service.py:87-112 | the table after `_finalize_manual_plan_if_needed` is `FinishAfterClose` of the old one |
| ManualPlans.ManualPlanStore.Cancel | backend/app/api/routes.py:43-56 | not found for an unknown id, else CANCELLED whatever the current status |
| ManualPlans.ManualPlanStore.Claim | backend/app/core/scheduler.py:108-119 | true iff the plan was PENDING, which then becomes EXECUTING; otherwise nothing changes |
| ManualPlans.DuePlansSpec | backend/app/services/manual_plan_service.py:24-45 | due plans are exactly the pending ones whose time has come, so a subset; all three listings are sorted by listing time |
| ManualPlans.CancelOverridesExecuting | backend/app/api/routes.py:50-54 | cancelling an EXECUTING plan still sets CANCELLED |
| ManualPlans.ClaimOnce | backend/app/core/scheduler.py:108-119 | a claim succeeds at most once: a second claim finds no PENDING row (and lines 210-221) |
| TradePlans.FirstPlanOf | backend/app/services/trade_service.py:22-24 | the first stored plan of the announcement, or none |
| TradePlans.EnsurePlanSpec | backend/app/services/trade_service.py:19-38 | raises without a listing time and changes nothing; returns an existing plan without creating one; else appends one QUEUED plan with the settings and entry time = listing time |
| TradePlans.EnsurePlanIdempotent | backend/app/services/trade_service.py:19-38 | a second call returns the same plan and creates nothing, whatever id it is offered |
| TradePlans.UpdatedKeepsIds | backend/app/services/trade_service.py:40-52 | replacing a plan by one with the same id keeps the ids and their distinctness |
| TradePlans.TradeStore.EnsurePlanFor | backend/app/services/trade_service.py:19-38 | the store after the call is that of `EnsurePlan` |
| TradePlans.TradeStore.ActivatePlan | backend/app/services/trade_service.py:40-45 | the plan becomes ACTIVE entered at now; nothing else changes |
| TradePlans.TradeStore.CompletePlan | backend/app/services/trade_service.py:47-52 | EXITED on success, FAILED otherwise, exited at now; nothing else changes |
| TradePlans.TradeStore.ApproveAnnouncement | backend/app/services/trade_service.py:54-58 | the announcement becomes APPROVED, which stays even when ensuring the plan raises |
| PriceFeed.LastWriteWins | backend/app/services/binance_websocket_service.py:241-253 | of two accepted updates for a symbol, the later arrival wins whatever the event times say |
| PriceFeed.EventTimeIgnored | backend/app/services/binance_websocket_service.py:241-253 | the event time in a message never influences the cache |
| PriceFeed.MissingPriceCachesZero | backend/app/services/binance_websocket_service.py:243-249 | a message without "p" caches the price parsed from "0" |
| PriceFeed.MarkPriceStream.Start | backend/app/services/binance_websocket_service.py:41-67 | a no-op while running; else subscriptions become the upper-cased, de-duplicated symbols (empty for None) and the service runs |
| PriceFeed.MarkPriceStream.Stop | backend/app/services/binance_websocket_service.py:69-81 | clears the running flag and drops all connections; subscriptions and prices stay |
| PriceFeed.MarkPriceStream.ConnectSymbol | backend/app/services/binance_websocket_service.py:222-229 | opens a connection only when the symbol has none, so at most one per symbol (called at line 292) |
| PriceFeed.MarkPriceStream.Subscribe | backend/app/services/binance_websocket_service.py:83-98 | upper-cases; a no-op when already subscribed; otherwise adds the symbol (a set) and connects only while running |
| PriceFeed.MarkPriceStream.Unsubscribe | backend/app/services/binance_websocket_service.py:100-127 | a no-op when not subscribed; else drops connection and subscription and keeps the cached price |
| PriceFeed.MarkPriceStream.FreshPrice | backend/app/services/binance_websocket_service.py:140-148 | the cached price iff it arrived less than 5 s before now |
| PriceFeed.MarkPriceStream.GetPrice | backend/app/services/binance_websocket_service.py:129-151 | the fresh price or None; on a miss a running service subscribes an unsubscribed upper-cased symbol and opens its one connection; an already subscribed symbol or a stopped service changes nothing |
| PriceFeed.MarkPriceStream.AllFreshPrices | backend/app/services/binance_websocket_service.py:153-165 | exactly the cache entries younger than 5 s |
| PriceFeed.MarkPriceStream.OnMessage | backend/app/services/binance_websocket_service.py:234-253 | the cache after the message is `ApplyMessage` of the old one: only a well-formed markPriceUpdate writes, stamped with arrival time |
| PriceFeed.AvailabilityAgrees | backend/app/services/binance_websocket_service.py:153-190 | `is_price_available` agrees with `get_all_prices`, and `get_price` serves exactly what it lists |
| ExchangeClient.TruncToInt | backend/app/services/binance_service.py:752 | ROUND_DOWN to an integer truncates toward zero |
| ExchangeClient.StepFloor | backend/app/services/binance_service.py:749-755 | fails exactly for a zero step |
| ExchangeClient.StepFloorBounds | backend/app/services/binance_service.py:749-755 | for q >= 0 and step > 0: a whole multiple of the step, at most q, less than one step below q (used at lines 869-872 and 880-883) |
| ExchangeClient.DecStepFloor | backend/app/services/binance_service.py:749-755 | the floored Decimal carries the step's exponent |
| ExchangeClient.DecStepFloorValue | backend/app/services/binance_service.py:749-755 | the Decimal flooring agrees in value with the flooring on reals |
| ExchangeClient.OrderQuantityTextAsWritten | backend/app/services/binance_service.py:749-758 | there is text exactly for a non-zero step |
| ExchangeClient.QuantityTextStripsIntegerZeros | backend/app/services/binance_service.py:758 | as written, 10 on step "1" is sent as "1" (used at lines 875 and 886) |
| ExchangeClient.OrderQuantityText | backend/app/services/binance_service.py:749-758 | as intended, text exactly for a non-zero step |
| ExchangeClient.QuantityTextFixedIntegral | backend/app/services/binance_service.py:758 | the intended text of a positive integral Decimal is a digit string denoting its value |
| ExchangeClient.OrderQuantityTextIntegral | backend/app/services/binance_service.py:749-758 | the intended order text of an integral floored quantity denotes exactly it ("10" for 10) |
| ExchangeClient.QuantityTextFixedFractional | backend/app/services/binance_service.py:758 | for fractional Decimals the intended and as-written texts coincide |
| ExchangeClient.StripZerosKeepsIntegerPart | backend/app/services/binance_service.py:758 | with one decimal point, stripping removes only fractional zeros and the point |
| ExchangeClient.OpenPositionsSound | backend/app/services/binance_service.py:1195-1219 | each reported position comes from a row with non-zero amount, positive magnitude, BUY iff positive; every such row is reported |
| ExchangeClient.SideFollowsAmount | backend/app/services/binance_service.py:1200-1210 | BUY iff the amount is positive; the stored amount is its absolute value |
| ExchangeClient.PositionsFromExchange | backend/app/services/binance_service.py:1140-1219 | a failed request gives [], never None; otherwise the open positions of the reply |
| ExchangeClient.SymbolInfoDefaults | backend/app/services/binance_service.py:87-143 | a failed reply, an unlisted symbol or no filters give step 0.1 and tick 0.01 |
| ExchangeClient.SymbolInfoUsesLastLotSize | backend/app/services/binance_service.py:108-120 | the last LOT_SIZE filter with a step decides the step |
| ExchangeClient.LastLotSizeWins | backend/app/services/binance_service.py:108-120 | filters after the last LOT_SIZE do not change the step |
| ExchangeClient.BatchFromAll | backend/app/services/binance_service.py:1124-1129 | has exactly the requested symbols |
| ExchangeClient.BatchFromAllDefaultsToZero | backend/app/services/binance_service.py:1124-1129 | a requested symbol without a price gets 0 |
| ExchangeClient.ExchangeCaches.ClearBalanceCache | backend/app/services/binance_service.py:24-38 | None empties the balance cache, a kind removes only its key; other caches are kept |
| ExchangeClient.ExchangeCaches.ClearPriceCache | backend/app/services/binance_service.py:40-53 | None empties both price caches, a symbol removes only its entry; other caches are kept |
| ExchangeClient.ExchangeCaches.GetSymbolInfo | backend/app/services/binance_service.py:85-143 | upper-cases; answers from the cache when it can; otherwise caches and returns the reply's sizes with defaults |
| ExchangeClient.ExchangeCaches.GetMarkPrice | backend/app/services/binance_service.py:1015-1062 | WebSocket price if enabled and fresh, else HTTP cache younger than the TTL, else REST (cached); a failed REST call gives None; with the feed enabled and no fresh price a running feed subscribes the symbol, else the subscriptions stay; the feed's cache never changes |
| ExchangeClient.ExchangeCaches.GetAllMarkPrices | backend/app/services/binance_service.py:1064-1111 | the "all" entry while fresh; else the reply's prices, which refresh both caches; a failed reply gives {} |
| ExchangeClient.ExchangeCaches.GetMarkPricesBatch | backend/app/services/binance_service.py:1113-1138 | {} for no symbols; above five, every symbol from the all-prices map with 0 for missing; up to five, only requested symbols with non-zero prices |
| ExchangeClient.MarginNetFirstUsdt | backend/app/services/binance_service.py:449-457 | margin net is free+locked-borrowed-interest of the first USDT item |
| ExchangeClient.WalletIgnoresWithdrawing | backend/app/services/binance_service.py:634-645 | the wallet total never depends on the amount being withdrawn |
| Risk.DrawdownIsZero | backend/app/services/risk_management_service.py:74-107 | the measured drawdown is always 0, so a limit of at least 0 never rejects |
| Risk.ClosedSince | backend/app/services/risk_management_service.py:115-122 | only CLOSED positions with an exit at or after the day start, in order |
| Risk.DailyLossSpec | backend/app/services/risk_management_service.py:124-146 | rejects iff total < 0, initial = balance-total > 0 and \|total/initial\| > max; the measured value is that fraction |
| Risk.SumDayPnl | backend/app/services/risk_management_service.py:124-131 | the loop's total is the sum of each position's PnL, a position with a falsy price or quantity adding 0 |
| Risk.CheckDailyLoss | backend/app/services/risk_management_service.py:109-152 | the decision is `DailyLossDecision` on the total PnL of exactly the positions CLOSED since the start of the day |
| Risk.ValuateBounds | backend/app/services/risk_management_service.py:160-181 | with non-negative values, each symbol's value lies between 0 and the total |
| Risk.ConcentrationSpec | backend/app/services/risk_management_service.py:154-199 | the ratio (value+avg)/(total+avg) is in (0, 1]; an unpriced symbol measures 1/(n+1); a limit >= 1 never rejects |
| Risk.ConcentrationFromValuesSpec | backend/app/services/risk_management_service.py:183-193 | without a positive total the check is skipped (Allowed); otherwise it rejects iff n*value(symbol) + total > max*total*(n+1), the ratio (value+avg)/(total+avg) cross-multiplied; a rejection is a ConcentrationLimit whose measured ratio lies in (0, 1] above the maximum |
| Risk.CheckConcentration | backend/app/services/risk_management_service.py:154-199 | the accumulating loop computes `ConcentrationDecision` |
| Risk.LeverageCheck | backend/app/services/risk_management_service.py:201-216 | rejects iff leverage > max total leverage |
| Risk.ActiveOf | backend/app/services/risk_management_service.py:160-162 | exactly the ACTIVE positions, in order |
| Risk.CheckOrder | backend/app/services/risk_management_service.py:37-72 | disabled: always allowed; else allowed iff every applicable check allows, the rejection being the first in drawdown, daily loss, concentration, leverage order |
| Analytics.WalkBounds | backend/app/services/analytics_service.py:107-109 | the running high bounds the start high and every bar high seen, the low likewise |
| Analytics.WalkExit | backend/app/services/analytics_service.py:110-116 | trailing exit at high*(1-t) with close at or below it; stop exit at entry*(1-s) with low at or below it; else the last close |
| Analytics.BacktestSpec | backend/app/services/analytics_service.py:99-129 | fails only on a zero entry; entry is the first open, high >= entry >= low, exit is the last close when nothing triggered |
| Analytics.BacktestFirstTrigger | backend/app/services/analytics_service.py:107-116 | the exit is at the first bar whose close falls to the trailing level of the running high or whose low falls to the stop level; no earlier bar does; with none, the walk runs to the last bar |
| Analytics.WalkFirstTrigger | backend/app/services/analytics_service.py:107-116 | from any bar on, the walk stops at the first bar that triggers under the running high |
| Analytics.BacktestPnl | backend/app/services/analytics_service.py:118-125 | the PnL is the exit's return on entry: PnL times entry is exit minus entry |
| Analytics.BacktestStopLoss | backend/app/services/analytics_service.py:113-118 | a stop exit loses exactly the stop percentage (the plan's, else the settings') (percentages chosen at lines 103-104) |
| Analytics.BacktestTrailingLoss | backend/app/services/analytics_service.py:110-118 | a trailing exit loses at most the trailing percentage |
| Analytics.ComputePlan | backend/app/services/analytics_service.py:85-129 | the loop with its two breaks produces the back-test's result |
| WindowReturns.WindowSecondsOfLabel | backend/app/services/window_return_service.py:113-118 | n with unit m or M is n*60 seconds, any other unit n*3600 |
| WindowReturns.WindowSecondsQuirks | backend/app/services/window_return_service.py:113-118 | "30s" is 30 hours; "" and "m" raise |
| WindowReturns.EntryPrice | backend/app/services/window_return_service.py:95-98 | None for no bars, else the first close |
| WindowReturns.CloseAtSpec | backend/app/services/window_return_service.py:105-111 | the close of the first bar whose [open, open+interval) holds the target, else the last close |
| WindowReturns.PriceAtSearch | backend/app/services/window_return_service.py:100-111 | minute bars iff seconds <= 3600; None when that source is empty; else the search's price |
| WindowReturns.Pending | backend/app/services/window_return_service.py:38-42 | exactly the targets whose label is not stored, in order |
| WindowReturns.NewReturnsSpec | backend/app/services/window_return_service.py:50-63 | each record is a pending window with a price, the return on entry; every such window gets one |
| WindowReturns.ComputeReturnsSpec | backend/app/services/window_return_service.py:37-65 | a bad label raises; good, distinct labels never raise; stored records have distinct, unstored labels; nothing without pending windows or bars; entry from minute bars first |
| WindowReturns.NewReturnsDistinct | backend/app/services/window_return_service.py:51-64 | pending windows with distinct labels give records with distinct labels |
| WindowReturns.RepeatedWindowRaises | backend/app/services/window_return_service.py:51-65 | a good, unstored window listed twice whose price exists is added twice and the commit raises (unique announcement and window pair) |
| WindowReturns.ReturnStore.ComputeForAnnouncement | backend/app/services/window_return_service.py:37-65 | adds exactly `ComputeReturns`' records, or raises and adds nothing on a bad label or a repeated one |
| WindowReturns.ReturnStore.AppendReturns | backend/app/services/window_return_service.py:50-63 | the loop appends exactly `NewReturns` |
| Announcements.FirstUsdtLeftmost | backend/app/services/announcement_service.py:209-211 | the match found is the leftmost `([A-Z]{3,10})USDT` match with its greedy capture |
| Announcements.FirstUsdtNoMatch | backend/app/services/announcement_service.py:209-211 | no match is found only when the pattern matches nowhere |
| Announcements.FirstParenLeftmost | backend/app/services/announcement_service.py:212-214 | the match found is the leftmost `\(([A-Z0-9]{3,10})\)` match; none is found only when the pattern matches nowhere |
| Announcements.ExtractSymbolShape | backend/app/services/announcement_service.py:208-215 | an extracted symbol is 3 to 10 upper-case letters or digits |
| Announcements.SymbolInPrefersUsdt | backend/app/services/announcement_service.py:209-211 | when the joined, upper-cased text matches, the symbol is its leftmost, longest capture, made of letters |
| Announcements.ExtractSymbolNone | backend/app/services/announcement_service.py:208-215 | None iff neither pattern occurs |
| Announcements.Relabel | backend/app/services/announcement_service.py:135-149 | for a `_jp` feed each item's source gets "_jp"; nothing else changes |
| Announcements.CollectSpec | backend/app/services/announcement_service.py:65-150 | every item of a feed that answered is collected, relabelled, and every collected item comes from such a feed |
| Announcements.CollectAsWrittenFindsNothing | backend/app/services/announcement_service.py:133 | as written the fetch returns [] when no feed answered with an item and raises otherwise (the parsers' `extra_metadata=` at lines 176 and 203 against the field `metadata` at line 31) |
| Announcements.Fetch | backend/app/services/announcement_service.py:65-150 | the feed loop, with working parsers, returns `Collect` of the answers |
| Announcements.NewRecordsAsWrittenFromItems | backend/app/services/announcement_service.py:252-276 | as written, every record copies a fetched item whose source id is non-empty and was not stored before the batch |
| Announcements.NewRecordsAsWrittenComplete | backend/app/services/announcement_service.py:252-276 | as written, every item with a non-empty source id not stored before the batch gets a record |
| Announcements.NewRecordsAsWrittenAgrees | backend/app/services/announcement_service.py:252-262 | the as-written records (looked up against the stored rows only, the session does not autoflush) equal the corrected ones iff their source ids are distinct |
| Announcements.RepeatedItemAsWritten | backend/app/services/announcement_service.py:256 | an item listed twice gives, as written, two records with one source id; corrected, it is recorded once |
| Announcements.NewRecordsFresh | backend/app/services/announcement_service.py:252-262 | corrected (an id repeated within the batch is skipped): new records have non-empty, unknown, distinct source ids; PENDING_REVIEW iff approval is required, else APPROVED |
| Announcements.NewRecordsFromItems | backend/app/services/announcement_service.py:263-276 | corrected: every new record copies a fetched item |
| Announcements.NewRecordsComplete | backend/app/services/announcement_service.py:252-276 | corrected: every item with a non-empty, unknown source id is recorded |
| Announcements.AnnouncementStore.Sync | backend/app/services/announcement_service.py:240-290 | as written: a failed fetch changes nothing and returns []; the records built against the stored rows are added and returned, unless the commit fails (a repeated source id breaks the unique column, or any other failure), when nothing is stored or returned; source ids stay distinct |
| Backfill.BackfillRecordSpec | backend/app/services/backfill_service.py:59-81 | `_lang` suffix iff the language is not "en"; metadata gets "language" with all else kept; status follows the approval setting |
| Backfill.EmptyFirstPage | backend/app/services/backfill_service.py:49-52 | a feed whose first page is empty leaves rows and flag unchanged |
| Backfill.UnassignedStopRaises | backend/app/services/backfill_service.py:51-85 | as written, with every page empty the run raises on its first feed; with the flag reset it stores nothing |
| Backfill.BackfillParsedAsWrittenStoresNothing | backend/app/services/backfill_service.py:90-103 | as written, with any language the run raises on its first page, empty (the flag) or not (the parser's `extra_metadata=`), so it stores nothing |
| Backfill.FirstItemStored | backend/app/services/backfill_service.py:49-81 | corrected, a new and recent first item of the first page is the first row added |
| Backfill.ResetNeverRaises | backend/app/services/backfill_service.py:51-85 | with the flag reset before each feed's pages, the run never raises |
| Backfill.FeedsNeverRaise | backend/app/services/backfill_service.py:48-86 | the feeds of one language never raise with the reset |
| Backfill.PagesKeepAssigned | backend/app/services/backfill_service.py:49-57 | once assigned, the flag stays assigned through the pages |
| Backfill.AddPageAsWrittenAgrees | backend/app/services/backfill_service.py:54-84 | a page whose commit succeeds as written stores exactly what the corrected page stores |
| Backfill.RepeatedItemInPage | backend/app/services/backfill_service.py:59-84 | a recent new item listed twice in a page: as written the page's commit raises on the unique source id; corrected, it is stored once |
| Backfill.AddPageExtends | backend/app/services/backfill_service.py:54-83 | corrected (an id repeated within the page is skipped): a page only appends and never repeats a stored source id |
| Backfill.AddPageOrigins | backend/app/services/backfill_service.py:54-81 | every appended row records a page item not older than the cutoff |
| Backfill.PagesExtend | backend/app/services/backfill_service.py:49-84 | corrected pages: a feed's pages only append, keeping source ids distinct |
| Backfill.FeedsExtend | backend/app/services/backfill_service.py:48-86 | corrected pages: one language's feeds only append, keeping source ids distinct |
| Backfill.LanguagesExtend | backend/app/services/backfill_service.py:46-86 | with the flag as written or reset, and corrected pages, a whole run only appends and never stores a source id twice |
| Backfill.RunPage | backend/app/services/backfill_service.py:54-84 | the item loop leaves the rows of the corrected `AddPage` and counts what it added |
| Backfill.RunFeed | backend/app/services/backfill_service.py:49-84 | the page loop leaves the rows of `Pages`, with the flag reset |
| Backfill.RunLanguage | backend/app/services/backfill_service.py:48-86 | the feed loop leaves the rows of `FeedsRun` |
| Backfill.RunBackfill | backend/app/services/backfill_service.py:31-88 | languages default to ["en"]; the rows are `BackfillRows`' and the total counts those added |
| EnvLines.SettingLine | backend/app/api/routes.py:641-646 | a `KEY=value` line with a clean key and stripped value is read by the route's line parser (stripped, non-comment, split at the first "=") as exactly that key and value (lines written at 740 and 749) |
| EnvLines.ReadLinesSpec | backend/app/api/routes.py:709 | `readlines` cuts the text into complete lines, the last one possibly without a line break, and writing them back gives the text |
| EnvLines.ReadLinesJoined | backend/app/api/routes.py:754 | lines of that shape written with `writelines` and cut again are the same lines |
| EnvLines.TerminatedSpec | backend/app/api/routes.py:709 | adding the missing line break makes every line complete and changes only a last line without one |
| EnvLines.TerminatedText | backend/app/api/routes.py:709 | a text that is empty or ends in a line break needs no added line break |
| EnvLines.EnvLineNewline | backend/app/api/routes.py:642-646 | a line reads as the same entry with or without its line break |
| EnvLines.EnvLineReadsBack | backend/app/api/routes.py:641-646 | a written `KEY=value` line with a clean key and stripped value reads back as that key and value (lines written at 740 and 749) |
| SettingsApi.ValidationError | backend/app/api/routes.py:650-699 | no error iff every supplied field is in range (order type MARKET/LIMIT in any case, amounts >= 0, leverage >= 1, pct in (0, 1]); else the first failing field's detail |
| SettingsApi.OrderTypeCaseInsensitive | backend/app/api/routes.py:650-655 | order types are accepted in any case and saved upper-cased |
| SettingsApi.ChangesSpec | backend/app/api/routes.py:650-730 | keys changed are the supplied fields' keys; only MAX_ORDER_AMOUNT with 0 is dropped; written values are stripped |
| SettingsApi.NoChangesIffNoFields | backend/app/api/routes.py:701-705 | nothing changes exactly when no field is supplied |
| SettingsApi.Apply | backend/app/api/routes.py:650-699 | new values set, dropped keys removed, every other key kept |
| SettingsApi.ReadEnv | backend/app/api/routes.py:640-646 | the reading loop yields `Entries`: a later line overrides an earlier one |
| SettingsApi.RewriteInPlace | backend/app/api/routes.py:734-744 | with no key dropped, updated lines become `KEY=value` and every other line keeps its text and position |
| SettingsApi.RewriteAsWrittenAgrees | backend/app/api/routes.py:734-744 | the as-written line loop agrees with the corrected one and raises only for a dropped key |
| SettingsApi.AppendAsWrittenAgrees | backend/app/api/routes.py:746-749 | the as-written append loop agrees with the corrected one and raises only for a dropped key |
| SettingsApi.RewriteReadBack | backend/app/api/routes.py:734-744 | reading back the rewritten lines: other keys as before, updated keys with their new value or gone |
| SettingsApi.AppendReadBack | backend/app/api/routes.py:746-749 | reading back the appended lines gives exactly the missing updated keys with their new values |
| SettingsApi.RewriteEnvFile | backend/app/api/routes.py:730-749 | the file written is the rewritten lines followed by the missing keys |
| SettingsApi.RewriteLines | backend/app/api/routes.py:734-744 | the line loop computes `Rewrite` and collects the updated keys met |
| SettingsApi.AppendLines | backend/app/api/routes.py:746-749 | the missing-key loop appends `KEY=value` for each updated key no line carried |
| SettingsApi.Precheck | backend/app/api/routes.py:636-705 | 404 without a file, 400 for a rejected field, a failure answer without fields, else proceed |
| SettingsApi.DroppedKeyRaises | backend/app/api/routes.py:740-749 | with a key dropped from `env_vars`, one of the as-written loops raises naming that key |
| SettingsApi.ZeroOrderAmountFailsAsWritten | backend/app/api/routes.py:671-672 | as written, max_order_amount 0 always ends in a 500 naming MAX_ORDER_AMOUNT (then lines 723-724, 740, 749 and 803-805) |
| SettingsApi.AsWrittenAgreesWithoutDrop | backend/app/api/routes.py:632-805 | apart from dropping the maximum order amount and a file whose last line has no line break, the route as written and as intended agree |
| SettingsApi.SavedFileReadsBack | backend/app/api/routes.py:707-757 | corrected: after a successful save, cutting the written text into lines and reading them gives exactly the route's `env_vars`, also for a file whose last line had no line break |
| SettingsApi.OpenLastLineGluedAsWritten | backend/app/api/routes.py:747-754 | for the file "K=w" with no final line break and any accepted update: as written the saved text reads back with K bound to another value (the first appended line is glued on); corrected, K keeps w |
| SettingsApi.GluedAsWritten | backend/app/api/routes.py:747-754 | as written, the first appended `KEY=value` line joins an open last line, so that line's key reads back with another value |
| SettingsApi.OpenLineKept | backend/app/api/routes.py:707-754 | corrected, the key of an open last line keeps its value |
| SettingsApi.SettingTextLine | backend/app/api/routes.py:749 | a `KEY=value` line of a one-line key and value is one complete line |
| SettingsApi.FileReadsBack | backend/app/api/routes.py:640-749 | the read-back argument for any parser that reads back the written lines |
| SettingsApi.SavedEnviron | backend/app/api/routes.py:759-764 | after a save the environment holds every new value, lacks a dropped key, and is otherwise unchanged |
| SettingsApi.WriteFailureChangesNothing | backend/app/api/routes.py:751-757 | a failed write changes neither the file nor the environment and reports a 500 |
| SettingsApi.Deployment.UpdateSettingsRoute | backend/app/api/routes.py:632-805 | the response, file and environment afterwards are `UpdateSettings`' |
| SettingsApi.ExitParamsSpec | backend/app/api/routes.py:537-575 | succeeds iff some percentage is given and each given one is in [0, 1]; then only those percentages change |
| SettingsApi.TrailingDisplayAgreesWithExit | backend/app/api/routes.py:298-307 | exists for BUY with a high and SELL with a low; distance <= 0 iff the exit rule's trailing stop fires |
| LoggingConfig.NormalizeLevel | backend/app/core/logging_config.py:20-28 | fallback for an empty name; else the stripped upper-case name if known, else the fallback |
| LoggingConfig.NormalizeLevelIdempotent | backend/app/core/logging_config.py:20-28 | a normalised name normalises to itself |
| LoggingConfig.Passes | backend/app/core/logging_config.py:31-43 | WARNING and above pass, key events pass; with key events only, nothing else; otherwise level >= minimum |
| LoggingConfig.PassesMonotone | backend/app/core/logging_config.py:34-41 | a passing record keeps passing at a higher severity |
| LoggingConfig.KeyEventsOnlyStricter | backend/app/core/logging_config.py:39-41 | key events only never shows what the full console hides |
| LoggingConfig.LogKeyEvent | backend/app/core/logging_config.py:46-56 | level normalised with fallback INFO; `%`-formatted and args cleared only with args and "%s"; a formatting error keeps both |
| LoggingConfig.KeyEventShown | backend/app/core/logging_config.py:31-56 | a key event, at a known level, passes the console filter under every filter setting |
| LoggingConfig.ConsoleShows | backend/app/core/logging_config.py:71-86 | the terminal shows nothing below the console level, key events included; at or above it, warnings, key events, and everything else unless only key events are wanted |
| LoggingConfig.KeyEventHiddenBelowConsoleLevel | backend/app/core/logging_config.py:79-86 | as configured, a key event at INFO passes the filter but does not reach a WARNING-level terminal |
| Config.ParseWindows | backend/app/core/config.py:126-131 | a text becomes a list; anything else is returned unchanged |
| Config.ParsedWindowsClean | backend/app/core/config.py:129-130 | every parsed window is non-empty, stripped and free of commas |
| Config.ParseWindowsJoin | backend/app/core/config.py:129-130 | parsing clean windows joined with commas gives them back in order |
| Config.ParseWindowsIdempotent | backend/app/core/config.py:126-131 | parsing a parsed value changes nothing |
| Config.NormalizeEmptyValues | backend/app/core/config.py:116-124 | anything but a dictionary is returned as is; a dictionary keeps its keys and every entry but an empty smtp_port, which becomes None |
| Config.NormalizedSpec | backend/app/core/config.py:120-124 | same keys; idempotent; entries other than smtp_port kept; smtp_port None afterwards iff it was "" or None |
| Config.RawValues.NormalizeEmpty | backend/app/core/config.py:120-124 | the in-place loop leaves `Normalized` of the old entries |
| Report.ReportWindowSpec | backend/app/services/report_service.py:21-23 | a whole UTC day ending at the midnight starting now's day, and the only such day |
| Report.CreatedBetween | backend/app/services/report_service.py:24-25 | soundness: every selected value is that of a row created within the window, both ends included, and no more values than rows |
| Report.CreatedBetweenSpec | backend/app/services/report_service.py:24-25 | completeness and order: every row created within the window is selected, at the position equal to the number of selected rows before it, so nothing in the window is dropped and table order is kept (the query has no ORDER BY; the model fixes table order) |
| Report.SymbolLabel | backend/app/services/report_service.py:32 | a missing or empty symbol shows as "未知" |
| Report.PlanLabel | backend/app/services/report_service.py:36-38 | the announcement's title when present, else the announcement id |
| Report.ReportLayout | backend/app/services/report_service.py:26-39 | 5 + anns + plans lines: header, blank, count, announcements, blank, count, plans |
| Report.ReportSplitsIntoLines | backend/app/services/report_service.py:39 | without line breaks inside lines, the report splits back into its lines |
| Report.BuildReport | backend/app/services/report_service.py:20-39 | the two loops produce `ReportText` |
| Report.AppendAnnouncementLines | backend/app/services/report_service.py:30-33 | the loop appends one line per announcement, in order |
| Report.AppendPlanLines | backend/app/services/report_service.py:35-38 | the loop appends one line per plan, in order |
| Common.UsdtSymbolShape | backend/app/core/scheduler.py:158-160 | the normalised symbol is upper-case and ends in "USDT" |

## Left out

- HTTP, REST signing, proxies, JSON decoding, SMTP, SQLAlchemy sessions and APScheduler job registration are I/O. The exchange, the database answers, the clock and the mail server are parameters or values.
- Threads and locks are left out: the `ThreadPoolExecutor` monitor path, WebSocket threads and reconnects, and the busy-wait's real sleeps. The monitor is modelled sequentially; a sleep's overrun is a drift parameter.
- Floats: slippage percentages, `str(float)` in the settings route (the `show` parameter) and display values are reals. Nothing models float rounding.
- Decimal context precision (28 digits) is not modelled: arithmetic on reals is exact.
- Common.IsSpace: `str.strip()` is modelled on the ASCII whitespace characters (space, tab, line feed, carriage return, vertical tab, form feed) only. Python also strips the other Unicode whitespace, such as U+00A0 and U+3000.
- `isoformat()` in the report is the `iso` parameter. Python `%` formatting in `log_key_event` is the `format` parameter. Loguru's own formatting of leftover arguments is not modelled.
- Upper-casing is ASCII only. `int()` accepts only an optional sign and ASCII digits, not underscores or surrounding spaces.
- Time has millisecond granularity. `datetime` microseconds are not modelled.
- Kline recovery of watermarks after an interruption is left out, except its interval table (`KlineWindowCovers`). The monitor's rollback on a failed batch update is also left out.
- The close path's quantity flooring and its order-status polling are not modelled. `ClosePosition` takes the closing order's outcome as a parameter.
- `ExecutionLog` rows and order-id fallbacks are not modelled; a recent close log is a parameter of `ClosePosition`.
- ExitEngine.PositionBook.ClosePosition: the plan updates after a close by order (lines 833-841) are not performed by the method, because the modelled rows carry no plan ids. The trade plan's EXITED status with exit time is `TradeStore.CompletePlan` with success. The manual plan's update is `ManualPlanStore.FinishPlan`. Both follow only the `ClosedByOrder` outcome.
- The `max_slippage_pct` re-check in `_place_order_with_slippage_check` is not modelled. Only the slippage test itself is (`CheckSlippageSpec`).
- Queries return rows in table order. `uuid4` ids are fresh-id parameters.
- The session does not autoflush, so the duplicate lookups of `sync_from_sources` and the backfill see only rows committed before the batch or page. `Sync` models this as written (see Findings); the backfill methods model the corrected page.
- `trade_plans` order: the first stored plan of an announcement is the one `announcement.trade_plans[0]` returns.
- Risk rejection texts are not modelled; a rejection carries its measured value only.
- The rest of `sync_positions_from_binance` is not modelled: creating and updating positions from the exchange. Only the duplicate merge is.
- A window label repeated in the settings makes the commit of `compute_for_announcement` fail, which the model states as an error result with no rows added (see Findings).
- The `_parse_*` helpers of the announcement fetcher are not modelled field by field: a feed's answer is the list of items its parser builds; as written that construction raises (see Findings).
- The settings route's `get_settings` reload and its mismatch warnings are log-only and not modelled.
- The exit-parameter route's status repair, which asks the exchange whether a CLOSED position is still open, is not modelled.
- Custom logger levels are the `levels` map parameter. `configure_logging`'s sinks are not modelled.
- A failed `.env` write is modelled as leaving the file unchanged; a partial write is not modelled.
- Python's iteration order over the updated-key set is fixed to the route's key order (`KeyOrder`).
- ExchangeClient.ExchangeCaches.GetMarkPricesBatch: for five symbols or fewer the contract states only which symbols can appear and that their prices are non-zero, not which lookup supplied each price.
- Backfill.RunBackfill: the method runs the corrected backfill (flag reset before each feed, an id repeated within a page skipped); the as-written flag is `BackfillAsWritten` and the as-written page `AddPageAsWritten`, which are functions only.
- Backfill.AddPageExtends: states the corrected page, which skips an id repeated within the page; as written that page's commit raises (`AddPageAsWritten`, `RepeatedItemInPage`).
- Backfill.PagesExtend: over corrected pages; as written a page repeating an id raises instead of extending the rows.
- Backfill.FeedsExtend: over corrected pages; as written a page repeating an id raises instead of extending the rows.
- Backfill.LanguagesExtend: over corrected pages; as written a page repeating an id raises instead of extending the rows.
- Backfill.RunPage: runs the corrected page; as written the page's commit raises when the page repeats an id.
- Backfill.RunFeed: runs corrected pages; as written a page repeating an id raises.
- Backfill.RunLanguage: runs corrected pages; as written a page repeating an id raises.

## Findings

| source | as written | input that shows it | evidently intended | confidence | as-written member | corrected member |
|---|---|---|---|---|---|---|
| backend/app/services/binance_service.py:758, 875, 886 | the quantity text is `format(q, 'f').rstrip('0').rstrip('.')`, which also strips zeros of an integer | step "1", quantity 10: floored to 10, sent as "1" | strip zeros only after a decimal point, sending "10" | not executed | ExchangeClient.QuantityTextStripsIntegerZeros | ExchangeClient.OrderQuantityTextIntegral |
| backend/app/services/execution_service.py:79-98, 200-213 | the "fall back to market" call goes through `_place_order_with_slippage_check`, which re-reads `order_type == LIMIT` and places another LIMIT order | order type LIMIT, a NEW order that never fills within the timeout | cancel, then place one market order | not executed | Execution.LimitFallbackPlacesLimitAgain | Execution.TimeoutPlacementOrders |
| backend/app/services/announcement_service.py:31, 133, 176, 203; backend/app/services/backfill_service.py:103 | `_parse_alpha` and `_parse_futures` build `NormalizedAnnouncement(..., extra_metadata=raw)`, but the dataclass field is `metadata`; the TypeError leaves `fetch` (line 133 is outside the per-feed handler), so `sync_from_sources` logs it and stores nothing, and the backfill raises | any feed answering with one item | pass `metadata=raw` | not executed | Announcements.CollectAsWrittenFindsNothing | Announcements.CollectSpec |
| backend/app/services/backfill_service.py:103 | the same parsers raise on the backfill's first non-empty page, and an empty first page raises on the unassigned flag | a first page of "alpha" with one item | pass `metadata=raw` and set the flag before each feed | not executed | Backfill.BackfillParsedAsWrittenStoresNothing | Backfill.FirstItemStored |
| backend/app/core/logging_config.py:47, 75-86 | the terminal sink is given `level=console_level` as well as the filter whose minimum is that level, so the filter's key-event bypass never lets a key event below the console level through | terminal level WARNING and `log_key_event("INFO", ...)` | key events reach the terminal at any level, as `log_key_event` is documented to ensure: the sink leaves the level to the filter | not executed | LoggingConfig.KeyEventHiddenBelowConsoleLevel | LoggingConfig.KeyEventShown |
| backend/app/services/backfill_service.py:51-53, 85 | `stop` is first assigned after the empty-page `break`, but read at line 85 | every page empty (a new source, or a fetch failure read as an empty page) | set `stop = False` before each feed's pages | not executed | Backfill.UnassignedStopRaises | Backfill.ResetNeverRaises |
| backend/app/services/announcement_service.py:252-262, 279-284; backend/app/db/session.py:17; backend/app/models/announcement.py:19 | the session does not autoflush, so the lookup of each item sees only committed rows; two items with one new source id are both added, the commit breaks the unique `source_id`, and the whole batch is rolled back and [] returned | two items without an id in one fetch (both get the id "None"), or a `_jp` item repeating a global id | skip an id already added in this batch | not executed | Announcements.RepeatedItemAsWritten | Announcements.NewRecordsFresh |
| backend/app/services/backfill_service.py:59-84 | the same unflushed lookup in `_exists` lets a page add one source id twice; the page's commit raises out of the backfill | a page listing one recent, new item twice | skip an id already added in this page | not executed | Backfill.RepeatedItemInPage | Backfill.AddPageExtends |
| backend/app/services/window_return_service.py:37-65; backend/app/models/announcement_return.py:13 | a label listed twice in the analysis windows is added twice and the commit breaks `uq_return_window_codex` | analysis windows listing "5m" twice, for an announcement with bars | compute each label once | not executed | WindowReturns.RepeatedWindowRaises | WindowReturns.NewReturnsDistinct |
| backend/app/api/routes.py:709, 749, 754 | `readlines` keeps a last line without its line break, and `writelines` joins the first appended `KEY=value` line onto it | `.env` "BINANCE_API_KEY=abc" without a final line break and leverage 5: the file becomes "BINANCE_API_KEY=abcLEVERAGE=5" plus a line break | add the missing line break before appending | not executed | SettingsApi.OpenLastLineGluedAsWritten | SettingsApi.SavedFileReadsBack |
| backend/app/api/routes.py:671-672, 723-724, 740, 749, 803-805 | max_order_amount 0 pops the key from `env_vars` yet keeps it in `keys_to_update`, so `env_vars[key]` raises KeyError and the route answers 500 | max_order_amount = 0 | remove the key's line from the file and the variable from the environment | not executed | SettingsApi.ZeroOrderAmountFailsAsWritten | SettingsApi.SavedFileReadsBack |
| backend/app/services/position_service.py:72-85, 572-576; backend/app/services/binance_service.py:1217-1219 | `get_positions_from_binance` returns [] on error, so the close path's `is None` guards never fire | an exchange outage during the three position fetches of a close | leave the position ACTIVE when its presence is unknown | not executed | ExitEngine.OutageFinalizesPosition | ExitEngine.FinalizeNeedsThreeAnswers |
| backend/app/services/position_service.py:164-175, 224-240 | `_resolve_price` calls `self.client.get_cached_price`, which the client does not define; the AttributeError is caught and the position skipped | a BUY at entry 100 with stop-loss 10% whose symbol is missing from the batch | use the cached price, else the entry price, and check the position | not executed | ExitEngine.MissingBatchPriceSkipsPosition | ExitEngine.ResolvePriceAgrees |
| backend/app/services/execution_service.py:285, 425 | the position is built with `max_slippage_pct=plan.max_slippage_pct`; `TradePlan` and `ManualPlan` have no such attribute and `Position` no such column, so the entry raises after the exchange order was placed | any plan whose order fills | record the position without that keyword (the slippage limit is already read through `getattr` at lines 238-240 and 372-374) | not executed | Execution.EntryRecordsNothingAsWritten | Execution.RecordEntrySpec |
| backend/app/models/manual_plan.py:11-24, backend/app/api/routes.py:40, backend/app/schemas/manual_plan.py:16, backend/app/main.py:191 | both create routes pass `max_slippage_pct` (the schema's `model_dump()` always includes it, default 0.5; the form route sets it explicitly), but `ManualPlan` declares no such column, so `ManualPlan(**data)` raises and nothing is stored | any create request, e.g. the schema defaults | store the plan with its slippage limit in a nullable column | not executed | ManualPlans.CreateRequestFailsAsWritten | ManualPlans.ManualPlanStore.Create |
| backend/app/services/position_service.py:694-702; backend/app/services/binance_service.py:719 | the close path calls `place_market_order(..., reduce_only=True, position_side=...)`, but the client method takes no `position_side`; the TypeError is raised before any order, the guard is released and the outer handler rolls back | any ACTIVE position that the exchange still lists when its exit rule fires | send the reduce-only market order without `position_side` | not executed | ExitEngine.PositionBook.ClosePositionAsWritten | ExitEngine.PositionBook.ClosePosition |
