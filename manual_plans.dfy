/**
 * Manual plans: the table of user-entered plans, its listing queries
 * (ordered by listing time), the status write, the cancel endpoint and
 * the conditional PENDING to EXECUTING claim the scheduler relies on.
 */
module ManualPlans {
  import opened Common

  datatype ManualPlanStatus = Pending | Armed | Executing | Executed | Failed | Cancelled

  datatype ManualPlan = ManualPlan(
    id: string, symbol: string, side: string, listingTime: int,
    leverage: real, positionPct: real, trailingExitPct: real, stopLossPct: real,
    maxSlippagePct: Option<real>, notes: Option<string>, status: ManualPlanStatus)

  /** The fields of a create request; columns with a default may be omitted. */
  datatype PlanFields = PlanFields(
    symbol: string, side: Option<string>, listingTime: int,
    leverage: Option<real>, positionPct: Option<real>, trailingExitPct: Option<real>, stopLossPct: Option<real>,
    maxSlippagePct: Option<real>, notes: Option<string>, status: Option<ManualPlanStatus>)

  function Default<T>(x: Option<T>, d: T): T
  {
    if x.Some? then x.value else d
  }

  /**
   * The stored row: given fields, else side BUY, leverage 5, 50%, 15%
   * trailing, 5% stop, PENDING; the slippage limit is kept in a nullable
   * `max_slippage_pct` column, which the table as declared lacks
   * (`CreateAsWritten`).
   */
  function NewPlan(id: string, f: PlanFields): (p: ManualPlan)
    ensures p.id == id && p.symbol == f.symbol && p.listingTime == f.listingTime && p.notes == f.notes
    ensures p.maxSlippagePct == f.maxSlippagePct
    ensures f.status.None? ==> p.status == Pending
    ensures f.status.Some? ==> p.status == f.status.value
    ensures f.side.None? ==> p.side == "BUY"
    ensures f.leverage.None? ==> p.leverage == 5.0
    ensures f.positionPct.None? ==> p.positionPct == 0.5
    ensures f.trailingExitPct.None? ==> p.trailingExitPct == 0.15
    ensures f.stopLossPct.None? ==> p.stopLossPct == 0.05
  {
    ManualPlan(id, f.symbol, Default(f.side, "BUY"), f.listingTime,
               Default(f.leverage, 5.0), Default(f.positionPct, 0.5), Default(f.trailingExitPct, 0.15),
               Default(f.stopLossPct, 0.05), f.maxSlippagePct, f.notes, Default(f.status, Pending))
  }

  /**
   * `ManualPlanCreate.model_dump()`: every field of the request schema,
   * with the schema's defaults (BUY, leverage 5, 50%, 15%, 5%, slippage
   * 0.5) for those the client left out, and no status.
   */
  function RequestFields(symbol: string, side: Option<string>, listingTime: int, leverage: Option<real>,
                         positionPct: Option<real>, trailingExitPct: Option<real>, stopLossPct: Option<real>,
                         maxSlippagePct: Option<real>, notes: Option<string>): (f: PlanFields)
    ensures f.side.Some? && f.leverage.Some? && f.positionPct.Some? && f.trailingExitPct.Some? && f.stopLossPct.Some?
    ensures f.maxSlippagePct.Some? && f.status.None?
    ensures maxSlippagePct.None? ==> f.maxSlippagePct == Some(0.5)
  {
    PlanFields(symbol, Some(Default(side, "BUY")), listingTime, Some(Default(leverage, 5.0)),
               Some(Default(positionPct, 0.5)), Some(Default(trailingExitPct, 0.15)), Some(Default(stopLossPct, 0.05)),
               Some(Default(maxSlippagePct, 0.5)), notes, None)
  }

  /**
   * `ManualPlan(**data)` against the table as declared, which has no
   * `max_slippage_pct` column: a request naming it is refused by the
   * declarative constructor and nothing is stored.
   */
  function CreateAsWritten(rows: seq<ManualPlan>, id: string, f: PlanFields): (r: Result<seq<ManualPlan>>)
  {
    if f.maxSlippagePct.Some? then Err("'max_slippage_pct' is an invalid keyword argument for ManualPlan")
    else Ok(rows + [NewPlan(id, f)])
  }

  /** As written, a create stores its row exactly when the request leaves the slippage out. */
  lemma CreateAsWrittenSpec(rows: seq<ManualPlan>, id: string, f: PlanFields)
    ensures CreateAsWritten(rows, id, f).Ok? <==> f.maxSlippagePct.None?
    ensures CreateAsWritten(rows, id, f).Ok? ==> CreateAsWritten(rows, id, f).value == rows + [NewPlan(id, f)]
  {
  }

  /**
   * The request schema never leaves the slippage out, so as written every
   * create request the API builds fails and the table is unchanged.
   */
  lemma CreateRequestFailsAsWritten(rows: seq<ManualPlan>, id: string,
                                    symbol: string, side: Option<string>, listingTime: int, leverage: Option<real>,
                                    positionPct: Option<real>, trailingExitPct: Option<real>, stopLossPct: Option<real>,
                                    maxSlippagePct: Option<real>, notes: Option<string>)
    ensures CreateAsWritten(rows, id, RequestFields(symbol, side, listingTime, leverage, positionPct, trailingExitPct,
                                                    stopLossPct, maxSlippagePct, notes)).Err?
  {
  }

  // ---------------------------------------------------------------------
  // Ordering by listing time
  // ---------------------------------------------------------------------

  predicate SortedByListing(ps: seq<ManualPlan>)
  {
    forall i, j :: 0 <= i < j < |ps| ==> ps[i].listingTime <= ps[j].listingTime
  }

  function Insert(p: ManualPlan, ps: seq<ManualPlan>): (r: seq<ManualPlan>)
    ensures multiset(r) == multiset(ps) + multiset{p}
    ensures forall q :: q in r ==> q == p || q in ps
  {
    if ps == [] then [p]
    else if p.listingTime <= ps[0].listingTime then [p] + ps
    else
      assert ps == [ps[0]] + ps[1..];
      [ps[0]] + Insert(p, ps[1..])
  }

  lemma {:induction false} InsertSorted(p: ManualPlan, ps: seq<ManualPlan>)
    requires SortedByListing(ps)
    ensures SortedByListing(Insert(p, ps))
  {
    if ps != [] && p.listingTime > ps[0].listingTime {
      var rest := Insert(p, ps[1..]);
      InsertSorted(p, ps[1..]);
      var r := [ps[0]] + rest;
      assert Insert(p, ps) == r;
      forall i, j | 0 <= i < j < |r| ensures r[i].listingTime <= r[j].listingTime {
        if i == 0 {
          var q := r[j];
          assert q in rest;
          if q != p {
            var k :| 0 <= k < |ps[1..]| && ps[1..][k] == q;
            assert ps[k + 1] == q;
          }
        } else {
          assert r[i] == rest[i - 1] && r[j] == rest[j - 1];
        }
      }
    }
  }

  /** `ORDER BY listing_time ASC`: a sorted permutation. */
  function SortByListing(ps: seq<ManualPlan>): (r: seq<ManualPlan>)
    ensures multiset(r) == multiset(ps)
    ensures SortedByListing(r)
  {
    if ps == [] then []
    else
      assert ps == [ps[0]] + ps[1..];
      InsertSorted(ps[0], SortByListing(ps[1..]));
      Insert(ps[0], SortByListing(ps[1..]))
  }

  // ---------------------------------------------------------------------
  // Filters
  // ---------------------------------------------------------------------

  function PendingOf(ps: seq<ManualPlan>): (r: seq<ManualPlan>)
    ensures forall p :: p in r <==> p in ps && p.status == Pending
  {
    if ps == [] then []
    else (if ps[0].status == Pending then [ps[0]] else []) + PendingOf(ps[1..])
  }

  function DueOf(ps: seq<ManualPlan>, now: int): (r: seq<ManualPlan>)
    ensures forall p :: p in r <==> p in ps && p.status == Pending && p.listingTime <= now
  {
    if ps == [] then []
    else (if ps[0].status == Pending && ps[0].listingTime <= now then [ps[0]] else []) + DueOf(ps[1..], now)
  }

  // ---------------------------------------------------------------------
  // Statuses by id
  // ---------------------------------------------------------------------

  function Ids(ps: seq<ManualPlan>): set<string>
  {
    set p | p in ps :: p.id
  }

  function IdList(ps: seq<ManualPlan>): (r: seq<string>)
    ensures |r| == |ps| && forall i :: 0 <= i < |ps| ==> r[i] == ps[i].id
  {
    if ps == [] then [] else [ps[0].id] + IdList(ps[1..])
  }

  predicate DistinctIds(ps: seq<ManualPlan>)
  {
    forall i, j :: 0 <= i < j < |ps| ==> ps[i].id != ps[j].id
  }

  /** The status of the row with this id, if there is one. */
  function StatusOf(ps: seq<ManualPlan>, id: string): Option<ManualPlanStatus>
  {
    if ps == [] then None
    else if ps[0].id == id then Some(ps[0].status)
    else StatusOf(ps[1..], id)
  }

  /** A plan has a status exactly when a row carries its id, and then it is that row's status. */
  lemma {:induction false} StatusOfIds(ps: seq<ManualPlan>, id: string)
    ensures StatusOf(ps, id).Some? <==> id in Ids(ps)
    ensures StatusOf(ps, id).Some? ==> exists i :: 0 <= i < |ps| && ps[i].id == id && ps[i].status == StatusOf(ps, id).value
  {
    if ps != [] {
      assert ps == [ps[0]] + ps[1..];
      assert Ids(ps) == {ps[0].id} + Ids(ps[1..]);
      StatusOfIds(ps[1..], id);
      if ps[0].id != id && StatusOf(ps, id).Some? {
        var i :| 0 <= i < |ps[1..]| && ps[1..][i].id == id && ps[1..][i].status == StatusOf(ps, id).value;
        assert ps[i + 1] == ps[1..][i];
      }
    }
  }

  /** `plan.status = status` on the row with this id. */
  function SetStatus(ps: seq<ManualPlan>, id: string, s: ManualPlanStatus): (r: seq<ManualPlan>)
    ensures |r| == |ps|
    ensures forall i :: 0 <= i < |ps| ==> r[i] == (if ps[i].id == id then ps[i].(status := s) else ps[i])
  {
    if ps == [] then []
    else [if ps[0].id == id then ps[0].(status := s) else ps[0]] + SetStatus(ps[1..], id, s)
  }

  /**
   * A status write changes the status of that one plan and nothing else:
   * ids, the other plans' statuses and every other field stay as they were.
   */
  lemma SetStatusEffect(ps: seq<ManualPlan>, id: string, s: ManualPlanStatus, x: string)
    ensures Ids(SetStatus(ps, id, s)) == Ids(ps)
    ensures DistinctIds(ps) ==> DistinctIds(SetStatus(ps, id, s))
    ensures StatusOf(SetStatus(ps, id, s), x) == (if x == id && StatusOf(ps, id).Some? then Some(s) else StatusOf(ps, x))
  {
    var r := SetStatus(ps, id, s);
    assert forall i :: 0 <= i < |ps| ==> r[i].id == ps[i].id;
    IdsPointwise(ps, r);
    SetStatusAt(ps, id, s, x);
  }

  lemma {:induction false} SetStatusAt(ps: seq<ManualPlan>, id: string, s: ManualPlanStatus, x: string)
    ensures StatusOf(SetStatus(ps, id, s), x) == (if x == id && StatusOf(ps, id).Some? then Some(s) else StatusOf(ps, x))
  {
    if ps != [] {
      var r := SetStatus(ps, id, s);
      assert r[1..] == SetStatus(ps[1..], id, s);
      SetStatusAt(ps[1..], id, s, x);
    }
  }

  lemma IdsPointwise(ps: seq<ManualPlan>, r: seq<ManualPlan>)
    requires |ps| == |r| && forall i :: 0 <= i < |ps| ==> r[i].id == ps[i].id
    ensures Ids(r) == Ids(ps)
  {
    forall x | x in Ids(r) ensures x in Ids(ps) {
      var q :| q in r && q.id == x;
      var i :| 0 <= i < |r| && r[i] == q;
      assert ps[i] in ps;
    }
    forall x | x in Ids(ps) ensures x in Ids(r) {
      var q :| q in ps && q.id == x;
      var i :| 0 <= i < |ps| && ps[i] == q;
      assert r[i] in r;
    }
  }

  // ---------------------------------------------------------------------
  // Finishing a plan once its positions are closed
  // ---------------------------------------------------------------------

  /** The statuses `_finalize_manual_plan_if_needed` leaves alone. */
  predicate Settled(s: ManualPlanStatus)
  {
    s == Cancelled || s == Failed || s == Executed
  }

  /** Some ACTIVE position other than `closedId` belongs to plan `planId`; `owners` pairs each ACTIVE position with its plan. */
  predicate OtherActive(owners: seq<(string, Option<string>)>, planId: string, closedId: string)
  {
    exists i :: 0 <= i < |owners| && owners[i].1 == Some(planId) && owners[i].0 != closedId
  }

  /**
   * `_finalize_manual_plan_if_needed` after position `closedId` of plan
   * `planId` closed: the plan, if it exists and is not settled, becomes
   * EXECUTED unless another of its positions is still ACTIVE.
   */
  function FinishAfterClose(ps: seq<ManualPlan>, planId: Option<string>, closedId: string,
                            owners: seq<(string, Option<string>)>): seq<ManualPlan>
  {
    if planId.None? || planId.value == "" then ps
    else
      var status := StatusOf(ps, planId.value);
      if status.None? || Settled(status.value) || OtherActive(owners, planId.value, closedId) then ps
      else SetStatus(ps, planId.value, Executed)
  }

  /**
   * Only the closed position's plan can change, and it becomes EXECUTED
   * exactly when it exists, is not settled, and none of its other
   * positions is ACTIVE; ids are kept; and finishing twice is finishing
   * once.
   */
  lemma FinishAfterCloseSpec(ps: seq<ManualPlan>, planId: Option<string>, closedId: string,
                             owners: seq<(string, Option<string>)>, x: string)
    ensures var r := FinishAfterClose(ps, planId, closedId, owners);
      && Ids(r) == Ids(ps)
      && StatusOf(r, x) ==
           (if planId == Some(x) && x != "" && StatusOf(ps, x).Some? && !Settled(StatusOf(ps, x).value)
               && !OtherActive(owners, x, closedId)
            then Some(Executed) else StatusOf(ps, x))
      && FinishAfterClose(r, planId, closedId, owners) == r
  {
    if planId.Some? && planId.value != "" {
      var id := planId.value;
      SetStatusEffect(ps, id, Executed, x);
      SetStatusEffect(ps, id, Executed, id);
    }
  }

  // ---------------------------------------------------------------------
  // The table
  // ---------------------------------------------------------------------

  class ManualPlanStore {
    var rows: seq<ManualPlan>

    predicate Valid()
      reads this
    {
      DistinctIds(rows)
    }

    constructor (initial: seq<ManualPlan>)
      requires DistinctIds(initial)
      ensures Valid() && rows == initial
    {
      rows := initial;
    }

    /** `create`: the new row gets a fresh id and the defaults. */
    method Create(id: string, f: PlanFields) returns (plan: ManualPlan)
      requires Valid() && id !in Ids(rows)
      modifies this
      ensures Valid()
      ensures plan == NewPlan(id, f) && rows == old(rows) + [plan]
    {
      plan := NewPlan(id, f);
      rows := rows + [plan];
      forall i, j | 0 <= i < j < |rows| ensures rows[i].id != rows[j].id {
        if j == |rows| - 1 {
          assert rows[i] in old(rows);
        }
      }
    }

    /** `list_all` */
    function ListAll(): seq<ManualPlan>
      reads this
    {
      SortByListing(rows)
    }

    /** `get_pending_plans` */
    function PendingPlans(): seq<ManualPlan>
      reads this
    {
      SortByListing(PendingOf(rows))
    }

    /** `due_plans` at time `now` */
    function DuePlans(now: int): seq<ManualPlan>
      reads this
    {
      SortByListing(DueOf(rows, now))
    }

    /** `mark_status` */
    method MarkStatus(id: string, s: ManualPlanStatus)
      requires Valid()
      modifies this
      ensures Valid()
      ensures rows == SetStatus(old(rows), id, s)
    {
      SetStatusEffect(rows, id, s, id);
      rows := SetStatus(rows, id, s);
    }

    /** `_finalize_manual_plan_if_needed` on the table. */
    method FinishPlan(planId: Option<string>, closedId: string, owners: seq<(string, Option<string>)>)
      requires Valid()
      modifies this
      ensures Valid()
      ensures rows == FinishAfterClose(old(rows), planId, closedId, owners)
    {
      if planId.None? || planId.value == "" {
        return;
      }
      var status := StatusOf(rows, planId.value);
      if status.None? || Settled(status.value) || OtherActive(owners, planId.value, closedId) {
        return;
      }
      MarkStatus(planId.value, Executed);
    }

    /** The cancel endpoint: 404 for an unknown id, else CANCELLED whatever the current status. */
    method Cancel(id: string) returns (found: bool)
      requires Valid()
      modifies this
      ensures Valid()
      ensures found <==> StatusOf(old(rows), id).Some?
      ensures rows == SetStatus(old(rows), id, Cancelled)
    {
      found := StatusOf(rows, id).Some?;
      SetStatusEffect(rows, id, Cancelled, id);
      rows := SetStatus(rows, id, Cancelled);
    }

    /** `UPDATE ... SET status = EXECUTING WHERE id = ? AND status = PENDING`; true iff a row changed. */
    method Claim(id: string) returns (claimed: bool)
      requires Valid()
      modifies this
      ensures Valid()
      ensures claimed <==> StatusOf(old(rows), id) == Some(Pending)
      ensures claimed ==> rows == SetStatus(old(rows), id, Executing)
      ensures !claimed ==> rows == old(rows)
    {
      claimed := StatusOf(rows, id) == Some(Pending);
      if claimed {
        SetStatusEffect(rows, id, Executing, id);
        rows := SetStatus(rows, id, Executing);
      }
    }
  }

  /**
   * The due plans are exactly the pending plans whose listing time has
   * come, so they are among the pending plans; both lists, and the full
   * listing, are sorted by listing time.
   */
  lemma DuePlansSpec(store: ManualPlanStore, now: int)
    ensures forall p :: p in store.DuePlans(now) <==> p in store.rows && p.status == Pending && p.listingTime <= now
    ensures forall p :: p in store.PendingPlans() <==> p in store.rows && p.status == Pending
    ensures forall p :: p in store.DuePlans(now) ==> p in store.PendingPlans()
    ensures SortedByListing(store.DuePlans(now)) && SortedByListing(store.PendingPlans()) && SortedByListing(store.ListAll())
    ensures multiset(store.ListAll()) == multiset(store.rows)
  {
    var due := store.DuePlans(now);
    var pending := store.PendingPlans();
    forall p ensures p in due <==> p in DueOf(store.rows, now) {
      assert p in due <==> p in multiset(due);
      assert p in DueOf(store.rows, now) <==> p in multiset(DueOf(store.rows, now));
    }
    forall p ensures p in pending <==> p in PendingOf(store.rows) {
      assert p in pending <==> p in multiset(pending);
      assert p in PendingOf(store.rows) <==> p in multiset(PendingOf(store.rows));
    }
  }

  /** Cancelling a plan the scheduler has already claimed still succeeds. */
  lemma CancelOverridesExecuting(ps: seq<ManualPlan>, id: string)
    requires StatusOf(ps, id) == Some(Executing)
    ensures StatusOf(SetStatus(ps, id, Cancelled), id) == Some(Cancelled)
  {
    SetStatusEffect(ps, id, Cancelled, id);
  }

  /** A claim succeeds at most once: after it the plan is EXECUTING and a second claim finds no PENDING row. */
  lemma ClaimOnce(ps: seq<ManualPlan>, id: string)
    requires StatusOf(ps, id) == Some(Pending)
    ensures StatusOf(SetStatus(ps, id, Executing), id) == Some(Executing)
    ensures StatusOf(SetStatus(ps, id, Executing), id) != Some(Pending)
  {
    SetStatusEffect(ps, id, Executing, id);
  }
}
