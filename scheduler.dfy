/**
 * The manual-plan scheduler: the pass over due plans (claim, execute,
 * record EXECUTED or FAILED), the precision pass over plans about to
 * list (WebSocket subscription and the precision-thread registry), the
 * precise wait before a listing, and the monitor interval selection.
 * Execution outcomes and clock overshoot are parameters.
 */
module Scheduler {
  import opened Common
  import opened ManualPlans
  import PriceFeed

  // ---------------------------------------------------------------------
  // Time windows
  // ---------------------------------------------------------------------

  /** Seconds from `now` until the listing, both in milliseconds. */
  function TimeDiff(listingTime: int, now: int): real
  {
    (listingTime - now) as real / 1000.0
  }

  datatype Window = Window(skip: bool, subscribe: bool, precision: bool)

  /**
   * The precision pass's view of one pending plan: plans whose listing
   * time has come are skipped; the symbol is subscribed within
   * `subscribeBeforeMinutes` minutes of the listing and a precision
   * thread is wanted within `thresholdSeconds`.
   */
  function Classify(listingTime: int, now: int, subscribeBeforeMinutes: real, thresholdSeconds: real): Window
  {
    if listingTime <= now then Window(true, false, false)
    else
      var d := TimeDiff(listingTime, now);
      Window(false, 0.0 < d <= subscribeBeforeMinutes * 60.0, 0.0 < d <= thresholdSeconds)
  }

  /**
   * In milliseconds: a plan whose listing has come is skipped, and one
   * still ahead is subscribed when it lists within the minutes and gets a
   * precision thread when it lists within the threshold; a threshold
   * inside the subscription window only ever adds threads to subscribed
   * plans.
   */
  lemma ClassifySpec(listingTime: int, now: int, subscribeBeforeMinutes: real, thresholdSeconds: real)
    ensures var w := Classify(listingTime, now, subscribeBeforeMinutes, thresholdSeconds);
      && (w.skip <==> listingTime <= now)
      && (w.subscribe <==> now < listingTime && (listingTime - now) as real <= subscribeBeforeMinutes * 60000.0)
      && (w.precision <==> now < listingTime && (listingTime - now) as real <= thresholdSeconds * 1000.0)
      && (thresholdSeconds <= subscribeBeforeMinutes * 60.0 && w.precision ==> w.subscribe)
  {
    if listingTime <= now {
      assert TimeDiff(listingTime, now) <= 0.0;
    }
  }

  /** The symbols the pass subscribes: the USDT pair of every plan inside its subscription window. */
  function SubscribeSet(pending: seq<ManualPlan>, now: int, subscribeBeforeMinutes: real): set<string>
  {
    if pending == [] then {}
    else
      var last := pending[|pending| - 1];
      SubscribeSet(pending[..|pending| - 1], now, subscribeBeforeMinutes) +
        (if Classify(last.listingTime, now, subscribeBeforeMinutes, 0.0).subscribe then {Upper(UsdtSymbol(last.symbol))} else {})
  }

  /**
   * The precision threads the pass starts, in order, and the registry
   * afterwards: a plan inside the threshold gets a thread unless a live
   * one is registered for it.
   */
  function Starts(pending: seq<ManualPlan>, now: int, thresholdSeconds: real, threads: set<string>, alive: string -> bool): (seq<string>, set<string>)
  {
    if pending == [] then ([], threads)
    else
      var p := pending[0];
      var wanted := Classify(p.listingTime, now, 0.0, thresholdSeconds).precision && (p.id !in threads || !alive(p.id));
      var rest := Starts(pending[1..], now, thresholdSeconds, if wanted then threads + {p.id} else threads, alive);
      (if wanted then [p.id] + rest.0 else rest.0, rest.1)
  }

  /** Each started thread is registered, and nothing else is: the registry grows by exactly the started ids. */
  lemma {:induction false} StartsRegisters(pending: seq<ManualPlan>, now: int, thresholdSeconds: real, threads: set<string>, alive: string -> bool)
    ensures var r := Starts(pending, now, thresholdSeconds, threads, alive);
      r.1 == threads + set id | id in r.0
  {
    if pending != [] {
      var p := pending[0];
      var wanted := Classify(p.listingTime, now, 0.0, thresholdSeconds).precision && (p.id !in threads || !alive(p.id));
      StartsRegisters(pending[1..], now, thresholdSeconds, if wanted then threads + {p.id} else threads, alive);
    }
  }

  /**
   * Every thread a pass starts is for a pending plan inside the threshold
   * that had no live registered thread, and every plan inside the
   * threshold whose id is unregistered or whose thread has died gets one.
   */
  lemma {:induction false} StartsSpec(pending: seq<ManualPlan>, now: int, thresholdSeconds: real, threads: set<string>, alive: string -> bool)
    ensures forall id :: id in Starts(pending, now, thresholdSeconds, threads, alive).0 ==>
      (id !in threads || !alive(id)) && exists i :: 0 <= i < |pending| && pending[i].id == id && 0.0 < TimeDiff(pending[i].listingTime, now) <= thresholdSeconds
    ensures forall i ::
      (0 <= i < |pending| && 0.0 < TimeDiff(pending[i].listingTime, now) <= thresholdSeconds && (pending[i].id !in threads || !alive(pending[i].id)))
      ==> pending[i].id in Starts(pending, now, thresholdSeconds, threads, alive).0
  {
    if pending != [] {
      var p := pending[0];
      var wanted := Classify(p.listingTime, now, 0.0, thresholdSeconds).precision && (p.id !in threads || !alive(p.id));
      var next := if wanted then threads + {p.id} else threads;
      StartsSpec(pending[1..], now, thresholdSeconds, next, alive);
      StartsRegisters(pending[1..], now, thresholdSeconds, next, alive);
      var rest := Starts(pending[1..], now, thresholdSeconds, next, alive);
      var r := Starts(pending, now, thresholdSeconds, threads, alive);
      assert r == (if wanted then [p.id] + rest.0 else rest.0, rest.1);
      forall id | id in r.0
        ensures (id !in threads || !alive(id)) && exists i :: 0 <= i < |pending| && pending[i].id == id && 0.0 < TimeDiff(pending[i].listingTime, now) <= thresholdSeconds
      {
        if wanted && id == p.id {
          assert pending[0].id == id;
        } else {
          assert id in rest.0;
          var i :| 0 <= i < |pending[1..]| && pending[1..][i].id == id && 0.0 < TimeDiff(pending[1..][i].listingTime, now) <= thresholdSeconds;
          assert pending[i + 1] == pending[1..][i];
        }
      }
      forall i | 0 <= i < |pending| && 0.0 < TimeDiff(pending[i].listingTime, now) <= thresholdSeconds &&
        (pending[i].id !in threads || !alive(pending[i].id))
        ensures pending[i].id in r.0
      {
        if i == 0 {
          assert p.listingTime > now;
          assert wanted;
        } else if !(wanted && pending[i].id == p.id) {
          assert pending[1..][i - 1] == pending[i];
          assert pending[i].id in rest.0;
        }
      }
    }
  }

  /** One step of the pass's subscriptions: the plan at `i` adds its symbol iff it is in its window. */
  lemma SubscribeSetStep(pending: seq<ManualPlan>, i: int, now: int, subscribeBeforeMinutes: real, thresholdSeconds: real)
    requires 0 <= i < |pending|
    ensures SubscribeSet(pending[..i + 1], now, subscribeBeforeMinutes) ==
      SubscribeSet(pending[..i], now, subscribeBeforeMinutes) +
      (if Classify(pending[i].listingTime, now, subscribeBeforeMinutes, thresholdSeconds).subscribe then {Upper(UsdtSymbol(pending[i].symbol))} else {})
  {
    assert pending[..i + 1][..i] == pending[..i];
  }

  /** One step of the pass's thread starts, unfolded at position `i`. */
  lemma StartsStep(pending: seq<ManualPlan>, i: int, now: int, subscribeBeforeMinutes: real, thresholdSeconds: real, threads: set<string>, alive: string -> bool)
    requires 0 <= i < |pending|
    ensures var p := pending[i];
      var wanted := Classify(p.listingTime, now, subscribeBeforeMinutes, thresholdSeconds).precision && (p.id !in threads || !alive(p.id));
      var rest := Starts(pending[i + 1..], now, thresholdSeconds, if wanted then threads + {p.id} else threads, alive);
      Starts(pending[i..], now, thresholdSeconds, threads, alive) == (if wanted then [p.id] + rest.0 else rest.0, rest.1)
  {
    assert pending[i..][1..] == pending[i + 1..];
    assert pending[i..][0] == pending[i];
  }

  /** The registry of running precision threads, by plan id. */
  class PrecisionRegistry {
    var threads: set<string>

    constructor ()
      ensures threads == {}
    {
      threads := {};
    }
  }

  /**
   * One plan of the precision pass: subscribe its symbol when it is inside
   * the subscription window and the feed is enabled; start and register a
   * precision thread when it is inside the threshold without a live one.
   */
  method PassPlan(p: ManualPlan, now: int, subscribeBeforeMinutes: real, thresholdSeconds: real,
                  wsEnabled: bool, alive: string -> bool, feed: PriceFeed.MarkPriceStream, registry: PrecisionRegistry)
    returns (start: bool)
    requires feed.Valid()
    modifies feed, registry
    ensures feed.Valid()
    ensures var w := Classify(p.listingTime, now, subscribeBeforeMinutes, thresholdSeconds);
      feed.subscribed == old(feed.subscribed) + (if w.subscribe && wsEnabled then {Upper(UsdtSymbol(p.symbol))} else {})
    ensures start <==> Classify(p.listingTime, now, subscribeBeforeMinutes, thresholdSeconds).precision && (p.id !in old(registry.threads) || !alive(p.id))
    ensures registry.threads == if start then old(registry.threads) + {p.id} else old(registry.threads)
  {
    var w := Classify(p.listingTime, now, subscribeBeforeMinutes, thresholdSeconds);
    if w.subscribe && wsEnabled {
      feed.Subscribe(UsdtSymbol(p.symbol));
    }
    start := w.precision && (p.id !in registry.threads || !alive(p.id));
    if start {
      registry.threads := registry.threads + {p.id};
    }
  }

  /**
   * The precision pass over the pending plans, run only in precision mode:
   * subscribes the symbols of plans inside the subscription window when
   * the WebSocket feed is enabled, and starts (registers) precision threads.
   */
  method PrecisionPass(pending: seq<ManualPlan>, now: int, subscribeBeforeMinutes: real, thresholdSeconds: real,
                       precisionMode: bool, wsEnabled: bool, alive: string -> bool,
                       feed: PriceFeed.MarkPriceStream, registry: PrecisionRegistry)
    returns (started: seq<string>)
    requires feed.Valid()
    modifies feed, registry
    ensures feed.Valid()
    ensures !precisionMode ==> started == [] && feed.subscribed == old(feed.subscribed) && registry.threads == old(registry.threads)
    ensures precisionMode && wsEnabled ==> feed.subscribed == old(feed.subscribed) + SubscribeSet(pending, now, subscribeBeforeMinutes)
    ensures !wsEnabled ==> feed.subscribed == old(feed.subscribed)
    ensures precisionMode ==> (started, registry.threads) == Starts(pending, now, thresholdSeconds, old(registry.threads), alive)
  {
    started := [];
    if !precisionMode {
      return;
    }
    var i := 0;
    ghost var goal := Starts(pending, now, thresholdSeconds, registry.threads, alive);
    assert pending[i..] == pending;
    assert started + goal.0 == goal.0;
    while i < |pending|
      invariant 0 <= i <= |pending|
      invariant feed.Valid()
      invariant wsEnabled ==> feed.subscribed == old(feed.subscribed) + SubscribeSet(pending[..i], now, subscribeBeforeMinutes)
      invariant !wsEnabled ==> feed.subscribed == old(feed.subscribed)
      invariant StartsSoFar(pending, i, now, thresholdSeconds, alive, registry.threads, started, goal)
    {
      var p := pending[i];
      SubscribeSetStep(pending, i, now, subscribeBeforeMinutes, thresholdSeconds);
      StartsSoFarStep(pending, i, now, subscribeBeforeMinutes, thresholdSeconds, alive, registry.threads, started, goal);
      var start := PassPlan(p, now, subscribeBeforeMinutes, thresholdSeconds, wsEnabled, alive, feed, registry);
      if start {
        started := started + [p.id];
      }
      i := i + 1;
    }
    assert pending[i..] == [];
    assert pending[..i] == pending;
    assert started + [] == started;
  }

  /** The threads started before `i` followed by those the rest of the pass starts are the whole pass's. */
  ghost predicate StartsSoFar(pending: seq<ManualPlan>, i: int, now: int, thresholdSeconds: real, alive: string -> bool,
                              threads: set<string>, started: seq<string>, goal: (seq<string>, set<string>))
    requires 0 <= i <= |pending|
  {
    var r := Starts(pending[i..], now, thresholdSeconds, threads, alive);
    started + r.0 == goal.0 && r.1 == goal.1
  }

  lemma StartsSoFarStep(pending: seq<ManualPlan>, i: int, now: int, subscribeBeforeMinutes: real, thresholdSeconds: real,
                        alive: string -> bool, threads: set<string>, started: seq<string>, goal: (seq<string>, set<string>))
    requires 0 <= i < |pending| && StartsSoFar(pending, i, now, thresholdSeconds, alive, threads, started, goal)
    ensures var p := pending[i];
      var wanted := Classify(p.listingTime, now, subscribeBeforeMinutes, thresholdSeconds).precision && (p.id !in threads || !alive(p.id));
      StartsSoFar(pending, i + 1, now, thresholdSeconds, alive, if wanted then threads + {p.id} else threads,
                  if wanted then started + [p.id] else started, goal)
  {
    var p := pending[i];
    StartsStep(pending, i, now, subscribeBeforeMinutes, thresholdSeconds, threads, alive);
    var wanted := Classify(p.listingTime, now, subscribeBeforeMinutes, thresholdSeconds).precision && (p.id !in threads || !alive(p.id));
    if wanted {
      PushAssoc(started, p.id, Starts(pending[i + 1..], now, thresholdSeconds, threads + {p.id}, alive).0);
    }
  }

  // ---------------------------------------------------------------------
  // Precise wait
  // ---------------------------------------------------------------------

  /** The short sleep taken with `remaining` milliseconds left: 5 ms above 10 ms, else 1 ms. */
  function ShortSleep(remaining: int): int
  {
    if remaining > 10 then 5 else 1
  }

  /**
   * The busy wait from `now`: while the clock is before the listing, sleep
   * the short step; the k-th sleep overruns by `drift(k)` milliseconds.
   * Returns the time the loop exits and the sleeps requested.
   */
  function WaitLoop(now: int, listingTime: int, drift: nat -> nat, k: nat): (r: (int, seq<int>))
    ensures r.0 >= listingTime && r.0 >= now
    decreases if now < listingTime then listingTime - now else 0
  {
    if now >= listingTime then (now, [])
    else
      var s := ShortSleep(listingTime - now);
      var rest := WaitLoop(now + s + drift(k), listingTime, drift, k + 1);
      (rest.0, [s] + rest.1)
  }

  /** The first, long sleep: up to 50 ms before the listing when more than 100 ms remain. */
  function LongSleep(start: int, listingTime: int): int
  {
    if listingTime - start > 100 then listingTime - start - 50 else 0
  }

  /** `precise_execute`'s wait: the long sleep (overrunning by `firstDrift`), then the loop. */
  function PreciseWaitEnd(start: int, listingTime: int, firstDrift: nat, drift: nat -> nat): (int, seq<int>)
  {
    var after := if LongSleep(start, listingTime) > 0 then start + LongSleep(start, listingTime) + firstDrift else start;
    WaitLoop(after, listingTime, drift, 0)
  }

  /** Sleeps that take exactly as long as requested. */
  function NoDrift(k: nat): nat { 0 }

  /** With exact sleeps the loop lands on the listing time itself. */
  lemma {:induction false} WaitLoopExact(now: int, listingTime: int, k: nat)
    requires now <= listingTime
    ensures WaitLoop(now, listingTime, NoDrift, k).0 == listingTime
    decreases listingTime - now
  {
    if now < listingTime {
      WaitLoopExact(now + ShortSleep(listingTime - now), listingTime, k + 1);
    }
  }

  /** Sleeps overrunning by at most `d` make the loop exit at most `d` ms late. */
  lemma {:induction false} WaitLoopLate(now: int, listingTime: int, drift: nat -> nat, d: nat, k: nat)
    requires forall j :: drift(j) <= d
    requires now <= listingTime + d
    ensures WaitLoop(now, listingTime, drift, k).0 <= listingTime + d
    decreases if now < listingTime then listingTime - now else 0
  {
    if now < listingTime {
      WaitLoopLate(now + ShortSleep(listingTime - now) + drift(k), listingTime, drift, d, k + 1);
    }
  }

  /** Every short sleep is 5 ms or 1 ms. */
  lemma {:induction false} WaitLoopSleeps(now: int, listingTime: int, drift: nat -> nat, k: nat)
    ensures forall s :: s in WaitLoop(now, listingTime, drift, k).1 ==> s == 5 || s == 1
    decreases if now < listingTime then listingTime - now else 0
  {
    if now < listingTime {
      WaitLoopSleeps(now + ShortSleep(listingTime - now) + drift(k), listingTime, drift, k + 1);
    }
  }

  /**
   * The wait never ends before the listing and never sleeps when the
   * listing has passed; with exact sleeps it ends exactly at the listing,
   * and with overruns of at most `d` ms (at most `d + 50` for the long
   * sleep) it ends at most `d` ms late.
   */
  lemma PreciseWaitSpec(start: int, listingTime: int, firstDrift: nat, drift: nat -> nat, d: nat)
    ensures PreciseWaitEnd(start, listingTime, firstDrift, drift).0 >= listingTime
    ensures start >= listingTime ==> PreciseWaitEnd(start, listingTime, firstDrift, drift) == (start, [])
    ensures start <= listingTime ==> PreciseWaitEnd(start, listingTime, 0, NoDrift).0 == listingTime
    ensures start < listingTime && firstDrift <= d + 50 && (forall j :: drift(j) <= d) ==>
      PreciseWaitEnd(start, listingTime, firstDrift, drift).0 <= listingTime + d
  {
    var long := LongSleep(start, listingTime);
    var after := if long > 0 then start + long else start;
    if start <= listingTime {
      WaitLoopExact(after, listingTime, 0);
    }
    if start < listingTime && firstDrift <= d + 50 && (forall j :: drift(j) <= d) {
      var after2 := if long > 0 then start + long + firstDrift else start;
      WaitLoopLate(after2, listingTime, drift, d, 0);
    }
  }

  /** The wait loop as `precise_execute` runs it, re-reading the clock after every sleep. */
  method PreciseWait(start: int, listingTime: int, firstDrift: nat, drift: nat -> nat) returns (execAt: int, sleeps: seq<int>)
    ensures (execAt, sleeps) == PreciseWaitEnd(start, listingTime, firstDrift, drift)
  {
    var now := start;
    var waitTime := listingTime - start;
    if waitTime > 100 {
      now := now + (waitTime - 50) + firstDrift;
    }
    sleeps := [];
    var k: nat := 0;
    assert PreciseWaitEnd(start, listingTime, firstDrift, drift) == WaitLoop(now, listingTime, drift, k);
    assert sleeps + WaitLoop(now, listingTime, drift, k).1 == WaitLoop(now, listingTime, drift, k).1;
    while now < listingTime
      invariant PreciseWaitEnd(start, listingTime, firstDrift, drift) == (WaitLoop(now, listingTime, drift, k).0, sleeps + WaitLoop(now, listingTime, drift, k).1)
      decreases listingTime - now
    {
      var s := ShortSleep(listingTime - now);
      var rest := WaitLoop(now + s + drift(k), listingTime, drift, k + 1);
      assert WaitLoop(now, listingTime, drift, k) == (rest.0, [s] + rest.1);
      assert sleeps + ([s] + rest.1) == (sleeps + [s]) + rest.1;
      sleeps := sleeps + [s];
      now := now + s + drift(k);
      k := k + 1;
    }
    assert WaitLoop(now, listingTime, drift, k) == (now, []);
    assert sleeps + [] == sleeps;
    execAt := now;
  }

  // ---------------------------------------------------------------------
  // Executing due plans
  // ---------------------------------------------------------------------

  function Outcome(succeeds: bool): ManualPlanStatus
  {
    if succeeds then Executed else Failed
  }

  /** In a table with distinct ids every row's status is found by its id. */
  lemma {:induction false} StatusOfMember(ps: seq<ManualPlan>, p: ManualPlan)
    requires DistinctIds(ps) && p in ps
    ensures StatusOf(ps, p.id) == Some(p.status)
  {
    if ps[0] != p {
      var j :| 0 <= j < |ps| && ps[j] == p;
      assert ps[0].id != ps[j].id;
      assert ps[1..][j - 1] == p;
      StatusOfMember(ps[1..], p);
    }
  }

  /** A successful claim followed by the outcome write changes that plan's status to the outcome and nothing else. */
  lemma ClaimThenMark(rows: seq<ManualPlan>, id: string, s: ManualPlanStatus)
    requires StatusOf(rows, id) == Some(Pending)
    ensures forall x :: StatusOf(SetStatus(SetStatus(rows, id, Executing), id, s), x) == (if x == id then Some(s) else StatusOf(rows, x))
  {
    forall x ensures StatusOf(SetStatus(SetStatus(rows, id, Executing), id, s), x) == (if x == id then Some(s) else StatusOf(rows, x)) {
      SetStatusEffect(rows, id, Executing, x);
      SetStatusEffect(rows, id, Executing, id);
      SetStatusEffect(SetStatus(rows, id, Executing), id, s, x);
    }
  }

  /**
   * The claim-and-execute block: only a PENDING plan is claimed; a
   * claimed plan ends EXECUTED when its execution returns and FAILED when
   * it raises, and no other plan changes.
   */
  method ClaimAndExecute(store: ManualPlanStore, id: string, succeeds: bool) returns (claimed: bool)
    requires store.Valid()
    modifies store
    ensures store.Valid()
    ensures claimed <==> old(StatusOf(store.rows, id)) == Some(Pending)
    ensures claimed ==> forall x :: StatusOf(store.rows, x) == (if x == id then Some(Outcome(succeeds)) else old(StatusOf(store.rows, x)))
    ensures !claimed ==> store.rows == old(store.rows)
  {
    ghost var rows0 := store.rows;
    claimed := store.Claim(id);
    if claimed {
      store.MarkStatus(id, Outcome(succeeds));
      ClaimThenMark(rows0, id, Outcome(succeeds));
    }
  }

  /** One due plan: claimed and executed if still PENDING, its thread entry then dropped. */
  method RunOne(store: ManualPlanStore, registry: PrecisionRegistry, id: string, succeeds: bool)
    requires store.Valid()
    modifies store, registry
    ensures store.Valid()
    ensures forall x ::
      StatusOf(store.rows, x) == (if x == id && old(StatusOf(store.rows, id)) == Some(Pending) then Some(Outcome(succeeds)) else old(StatusOf(store.rows, x)))
    ensures registry.threads == if old(StatusOf(store.rows, id)) == Some(Pending) then old(registry.threads) - {id} else old(registry.threads)
  {
    var claimed := ClaimAndExecute(store, id, succeeds);
    if claimed {
      registry.threads := registry.threads - {id};
    }
  }

  lemma PrefixMember<T>(xs: seq<T>, i: int)
    requires 0 <= i < |xs|
    ensures forall x :: x in xs[..i + 1] <==> x in xs[..i] || x == xs[i]
  {
    assert xs[..i + 1] == xs[..i] + [xs[i]];
  }

  /**
   * The first step of `execute_manual_plans`: every due plan is claimed
   * and then marked EXECUTED when its execution returns and FAILED when
   * it raises, and its precision-thread entry is dropped; every other
   * plan keeps its status.
   */
  method RunDuePlans(store: ManualPlanStore, registry: PrecisionRegistry, now: int, succeeds: string -> bool)
    requires store.Valid()
    modifies store, registry
    ensures store.Valid()
    ensures forall p :: p in old(store.DuePlans(now)) ==> StatusOf(store.rows, p.id) == Some(Outcome(succeeds(p.id)))
    ensures forall x :: x !in old(IdList(store.DuePlans(now))) ==> StatusOf(store.rows, x) == old(StatusOf(store.rows, x))
    ensures forall x :: x in registry.threads <==> x in old(registry.threads) && x !in old(IdList(store.DuePlans(now)))
  {
    var due := store.DuePlans(now);
    var ids := IdList(due);
    ghost var rows0 := store.rows;
    DueMembers(rows0, now);
    var i := 0;
    while i < |due|
      invariant 0 <= i <= |due|
      invariant store.Valid()
      invariant forall x :: StatusOf(store.rows, x) ==
                             (if x in ids[..i] then Some(Outcome(succeeds(x))) else StatusOf(rows0, x))
      invariant forall x :: x in registry.threads <==> x in old(registry.threads) && x !in ids[..i]
    {
      var id := ids[i];
      PrefixMember(ids, i);
      if id !in ids[..i] {
        StatusOfMember(rows0, due[i]);
      }
      RunOne(store, registry, id, succeeds(id));
      i := i + 1;
    }
    assert ids[..i] == ids;
  }

  lemma DueMembers(rows: seq<ManualPlan>, now: int)
    ensures forall p :: p in SortByListing(DueOf(rows, now)) ==> p in rows && p.status == Pending
  {
    forall p | p in SortByListing(DueOf(rows, now)) ensures p in rows && p.status == Pending {
      assert p in multiset(SortByListing(DueOf(rows, now)));
    }
  }

  /**
   * One precision thread: wait for the listing, claim the plan, execute
   * it and record the outcome; its registry entry is removed whatever
   * happens.
   */
  method PreciseExecute(store: ManualPlanStore, registry: PrecisionRegistry, id: string, listingTime: int,
                        start: int, firstDrift: nat, drift: nat -> nat, succeeds: bool)
    returns (execAt: int)
    requires store.Valid()
    modifies store, registry
    ensures store.Valid()
    ensures execAt == PreciseWaitEnd(start, listingTime, firstDrift, drift).0 && execAt >= listingTime
    ensures old(StatusOf(store.rows, id)) == Some(Pending) ==>
      forall x :: StatusOf(store.rows, x) == (if x == id then Some(Outcome(succeeds)) else old(StatusOf(store.rows, x)))
    ensures old(StatusOf(store.rows, id)) != Some(Pending) ==> store.rows == old(store.rows)
    ensures registry.threads == old(registry.threads) - {id}
  {
    var sleeps;
    execAt, sleeps := PreciseWait(start, listingTime, firstDrift, drift);
    PreciseWaitSpec(start, listingTime, firstDrift, drift, 0);
    var claimed := ClaimAndExecute(store, id, succeeds);
    registry.threads := registry.threads - {id};
  }

  // ---------------------------------------------------------------------
  // Monitor interval
  // ---------------------------------------------------------------------

  const HighFrequencyInterval: real := 0.2
  const NormalFrequencyInterval: real := 1.0

  /** The intervals the position monitor and the manual executor currently run at, in seconds. */
  class MonitorIntervals {
    var position: real
    var manual: real

    constructor (position: real, manualCheckInterval: real)
      ensures this.position == position && manual == manualCheckInterval
    {
      this.position := position;
      manual := manualCheckInterval;
    }

    /**
     * After a monitoring round: 0.2 s with active positions, 1.0 s
     * without; jobs are rescheduled only when their interval changes, and
     * the manual executor is reconsidered only when the monitor's changed.
     */
    method Adjust(hasPositions: bool, manualCheckInterval: real, positionJob: bool, manualJob: bool)
      returns (rescheduledPosition: bool, rescheduledManual: bool)
      modifies this
      ensures position == (if hasPositions then HighFrequencyInterval else NormalFrequencyInterval)
      ensures rescheduledPosition <==> old(position) != position && positionJob
      ensures rescheduledManual ==> old(position) != position && manualJob && manual != old(manual)
      ensures old(position) != position && manualJob ==>
        manual == (if hasPositions then HighFrequencyInterval else manualCheckInterval)
      ensures !rescheduledManual ==> manual == old(manual)
    {
      rescheduledPosition, rescheduledManual := false, false;
      var next := if hasPositions then HighFrequencyInterval else NormalFrequencyInterval;
      if next != position {
        position := next;
        rescheduledPosition := positionJob;
        if manualJob {
          var nextManual := if hasPositions then HighFrequencyInterval else manualCheckInterval;
          if nextManual != manual {
            manual := nextManual;
            rescheduledManual := true;
          }
        }
      }
    }
  }
}
