/**
 * Trade plans created from approved announcements: `ensure_plan` creates
 * at most one QUEUED plan per announcement, `activate_plan` and
 * `complete_plan` move it through ACTIVE to EXITED or FAILED, and
 * `approve_announcement` approves the announcement before ensuring its plan.
 */
module TradePlans {
  import opened Common
  import opened Announcements

  datatype TradePlanStatus = Draft | Queued | PlanActive | Exited | PlanCancelled | PlanFailed

  datatype TradePlan = TradePlan(
    id: string, announcementId: string, leverage: real, positionPct: real,
    minAllocation: Option<real>, maxAllocation: Option<real>, trailingExitPct: real, stopLossPct: real,
    status: TradePlanStatus, plannedEntryTime: Option<int>, actualEntryTime: Option<int>, exitTime: Option<int>)

  /** The settings a new plan copies. */
  datatype PlanDefaults = PlanDefaults(leverage: real, positionPct: real, trailingExitPct: real, stopLossPct: real)

  function PlanIds(plans: seq<TradePlan>): set<string>
  {
    set p | p in plans :: p.id
  }

  /** The first stored plan of an announcement (`announcement.trade_plans`), if any. */
  function FirstPlanOf(plans: seq<TradePlan>, announcementId: string): (r: Option<TradePlan>)
    ensures r.Some? ==> r.value in plans && r.value.announcementId == announcementId
    ensures r.None? <==> forall p :: p in plans ==> p.announcementId != announcementId
  {
    if plans == [] then None
    else if plans[0].announcementId == announcementId then Some(plans[0])
    else FirstPlanOf(plans[1..], announcementId)
  }

  lemma {:induction false} FirstPlanOfAppend(plans: seq<TradePlan>, p: TradePlan, announcementId: string)
    ensures FirstPlanOf(plans + [p], announcementId) ==
      if FirstPlanOf(plans, announcementId).Some? then FirstPlanOf(plans, announcementId)
      else if p.announcementId == announcementId then Some(p) else None
  {
    if plans != [] {
      assert (plans + [p])[1..] == plans[1..] + [p];
      FirstPlanOfAppend(plans[1..], p, announcementId);
    }
  }

  function NewTradePlan(id: string, a: Announcement, d: PlanDefaults): TradePlan
  {
    TradePlan(id, a.id, d.leverage, d.positionPct, None, None, d.trailingExitPct, d.stopLossPct,
              Queued, a.listingTime, None, None)
  }

  /**
   * `ensure_plan` on values: the returned plan (or the error) and the
   * plans afterwards.
   */
  function EnsurePlan(plans: seq<TradePlan>, a: Announcement, d: PlanDefaults, newId: string): (Result<TradePlan>, seq<TradePlan>)
  {
    if a.listingTime.None? then (Err("missing listing time"), plans)
    else
      var existing := FirstPlanOf(plans, a.id);
      if existing.Some? then (Ok(existing.value), plans)
      else
        var p := NewTradePlan(newId, a, d);
        (Ok(p), plans + [p])
  }

  /**
   * `ensure_plan` raises without a listing time and then changes nothing;
   * it returns an existing plan of the announcement without creating one;
   * otherwise it appends one QUEUED plan for the announcement whose
   * parameters are the settings' and whose planned entry is the listing time.
   */
  lemma EnsurePlanSpec(plans: seq<TradePlan>, a: Announcement, d: PlanDefaults, newId: string)
    ensures var (r, after) := EnsurePlan(plans, a, d, newId);
      && (r.Err? <==> a.listingTime.None?)
      && (r.Err? ==> after == plans)
      && (r.Ok? && (exists q :: q in plans && q.announcementId == a.id) ==>
            after == plans && r.value in plans && r.value.announcementId == a.id)
      && (r.Ok? && (forall q :: q in plans ==> q.announcementId != a.id) ==>
            && after == plans + [r.value]
            && r.value.id == newId && r.value.announcementId == a.id && r.value.status == Queued
            && r.value.plannedEntryTime == a.listingTime
            && r.value.leverage == d.leverage && r.value.positionPct == d.positionPct
            && r.value.trailingExitPct == d.trailingExitPct && r.value.stopLossPct == d.stopLossPct
            && r.value.actualEntryTime.None? && r.value.exitTime.None?)
  {
  }

  /**
   * `ensure_plan` is idempotent: a second call returns the same plan and
   * creates nothing, whatever new id it is offered.
   */
  lemma EnsurePlanIdempotent(plans: seq<TradePlan>, a: Announcement, d: PlanDefaults, id1: string, id2: string)
    ensures var (r1, after1) := EnsurePlan(plans, a, d, id1);
      EnsurePlan(after1, a, d, id2) == (r1, after1)
  {
    if a.listingTime.Some? && FirstPlanOf(plans, a.id).None? {
      FirstPlanOfAppend(plans, NewTradePlan(id1, a, d), a.id);
    }
  }

  /** `activate_plan`: ACTIVE, entered at `now`. */
  function Activated(p: TradePlan, now: int): TradePlan
  {
    p.(status := PlanActive, actualEntryTime := Some(now))
  }

  /** `complete_plan`: EXITED on success, FAILED otherwise, exited at `now`. */
  function Completed(p: TradePlan, success: bool, now: int): TradePlan
  {
    p.(status := if success then Exited else PlanFailed, exitTime := Some(now))
  }

  /** The plan with id `id` (the caller's plan object). */
  function FindPlan(plans: seq<TradePlan>, id: string): (p: TradePlan)
    requires id in PlanIds(plans)
    ensures p in plans && p.id == id
  {
    if plans[0].id == id then plans[0] else FindPlan(plans[1..], id)
  }

  /** The plans with the row whose id is `id` replaced by `q`, which keeps that id. */
  function Updated(plans: seq<TradePlan>, id: string, q: TradePlan): (r: seq<TradePlan>)
    ensures |r| == |plans|
    ensures forall i :: 0 <= i < |plans| ==> r[i] == if plans[i].id == id then q else plans[i]
  {
    if plans == [] then [] else [if plans[0].id == id then q else plans[0]] + Updated(plans[1..], id, q)
  }

  predicate DistinctPlanIds(plans: seq<TradePlan>)
  {
    forall i, j :: 0 <= i < j < |plans| ==> plans[i].id != plans[j].id
  }

  /**
   * Replacing the plan `id` by a plan with the same id (as activation and
   * completion do) keeps the set of plan ids and keeps them distinct.
   */
  lemma UpdatedKeepsIds(plans: seq<TradePlan>, id: string, q: TradePlan)
    requires q.id == id
    requires id in PlanIds(plans)
    ensures PlanIds(Updated(plans, id, q)) == PlanIds(plans)
    ensures DistinctPlanIds(plans) ==> DistinctPlanIds(Updated(plans, id, q))
  {
    var u := Updated(plans, id, q);
    UpdatedIdsAt(plans, id, q);
    forall x | x in PlanIds(u) ensures x in PlanIds(plans) {
      var i :| 0 <= i < |u| && u[i].id == x;
      assert plans[i] in plans;
    }
    forall x | x in PlanIds(plans) ensures x in PlanIds(u) {
      var i :| 0 <= i < |plans| && plans[i].id == x;
      assert u[i] in u;
    }
  }

  lemma UpdatedIdsAt(plans: seq<TradePlan>, id: string, q: TradePlan)
    requires q.id == id
    ensures var u := Updated(plans, id, q);
      |u| == |plans| && forall i :: 0 <= i < |u| ==> u[i].id == plans[i].id
  {
  }

  class TradeStore {
    var plans: seq<TradePlan>
    var announcements: map<string, Announcement>

    constructor (initialPlans: seq<TradePlan>, initialAnnouncements: map<string, Announcement>)
      ensures plans == initialPlans && announcements == initialAnnouncements
    {
      plans := initialPlans;
      announcements := initialAnnouncements;
    }

    /** `ensure_plan`; the new plan's id is the fresh `newId`. */
    method EnsurePlanFor(a: Announcement, d: PlanDefaults, newId: string) returns (r: Result<TradePlan>)
      modifies this
      ensures (r, plans) == EnsurePlan(old(plans), a, d, newId)
      ensures announcements == old(announcements)
    {
      if a.listingTime.None? {
        return Err("missing listing time");
      }
      var existing := FirstPlanOf(plans, a.id);
      if existing.Some? {
        return Ok(existing.value);
      }
      var p := NewTradePlan(newId, a, d);
      plans := plans + [p];
      r := Ok(p);
    }

    /** `activate_plan` on the stored plan `id`. */
    method ActivatePlan(id: string, now: int) returns (p: TradePlan)
      requires id in PlanIds(plans)
      modifies this
      ensures p == Activated(FindPlan(old(plans), id), now)
      ensures plans == Updated(old(plans), id, p)
      ensures announcements == old(announcements)
    {
      p := Activated(FindPlan(plans, id), now);
      plans := Updated(plans, id, p);
    }

    /** `complete_plan` on the stored plan `id`. */
    method CompletePlan(id: string, success: bool, now: int) returns (p: TradePlan)
      requires id in PlanIds(plans)
      modifies this
      ensures p == Completed(FindPlan(old(plans), id), success, now)
      ensures plans == Updated(old(plans), id, p)
      ensures announcements == old(announcements)
    {
      p := Completed(FindPlan(plans, id), success, now);
      plans := Updated(plans, id, p);
    }

    /**
     * `approve_announcement`: the approval is committed first, so it
     * stays even when ensuring the plan then raises.
     */
    method ApproveAnnouncement(announcementId: string, d: PlanDefaults, newId: string) returns (r: Result<TradePlan>)
      requires announcementId in announcements
      modifies this
      ensures announcements == old(announcements)[announcementId := old(announcements)[announcementId].(status := Approved)]
      ensures (r, plans) == EnsurePlan(old(plans), announcements[announcementId], d, newId)
    {
      var a := announcements[announcementId].(status := Approved);
      announcements := announcements[announcementId := a];
      r := EnsurePlanFor(a, d, newId);
    }
  }
}
