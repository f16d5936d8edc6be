/**
 * The daily report: the announcements and trade plans created between
 * yesterday's and today's UTC midnight, one line each under a header, as
 * `build_report` writes it. Times are milliseconds since the epoch;
 * `isoformat()` of a UTC time is the parameter `iso`. Sending the report
 * by mail is not part of this model.
 */
module Report {
  import opened Common
  import opened Announcements
  import opened TradePlans

  const DayMs: nat := 86400000

  /** A row of a table together with its `created_at`. */
  datatype Row<T> = Row(createdAt: int, value: T)

  // ---------------------------------------------------------------------
  // The reporting window
  // ---------------------------------------------------------------------

  /** From yesterday's UTC midnight to today's, as the report computes them from `now`. */
  function ReportWindow(now: int): (int, int)
  {
    var midnight := now - now % DayMs;
    var start := midnight - DayMs;
    (start, start + DayMs)
  }

  /**
   * The window is one whole UTC day ending at the midnight that starts the
   * day of `now`, and it is the only such day.
   */
  lemma ReportWindowSpec(now: int, other: int)
    ensures var (start, end) := ReportWindow(now);
      && start % DayMs == 0 && end == start + DayMs
      && end <= now < end + DayMs
      && (other % DayMs == 0 && other + DayMs <= now < other + 2 * DayMs ==> other == start)
  {
    var (start, end) := ReportWindow(now);
    if other % DayMs == 0 && other + DayMs <= now < other + 2 * DayMs {
      var q := other / DayMs;
      var p := now / DayMs;
      assert other == q * DayMs;
      assert now == p * DayMs + now % DayMs;
      assert start == (p - 1) * DayMs;
      ScaleMonotone(q + 1, p + 1, DayMs);
      ScaleMonotone(p, q + 2, DayMs);
    }
  }

  /** Scaling by a positive factor keeps the order. */
  lemma ScaleMonotone(a: int, b: int, d: int)
    requires d > 0
    ensures a >= b ==> a * d >= b * d
  {
    assert a * d - b * d == (a - b) * d;
  }

  /** The rows `created_at.between(start, end)` selects, both ends included, in table order. */
  function CreatedBetween<T>(rows: seq<Row<T>>, start: int, end: int): (r: seq<T>)
    ensures |r| <= |rows|
    ensures forall x :: x in r ==> exists i :: 0 <= i < |rows| && rows[i].value == x && start <= rows[i].createdAt <= end
  {
    if rows == [] then []
    else
      var rest := CreatedBetween(rows[1..], start, end);
      if start <= rows[0].createdAt <= end then [rows[0].value] + rest else rest
  }

  /**
   * Every row created within the window is selected, at the position
   * given by the number of selected rows before it: nothing in the window
   * is dropped and table order is kept.
   */
  lemma CreatedBetweenSpec<T>(rows: seq<Row<T>>, start: int, end: int)
    ensures var r := CreatedBetween(rows, start, end);
      forall i :: 0 <= i < |rows| && start <= rows[i].createdAt <= end ==>
        var k := |CreatedBetween(rows[..i], start, end)|;
        k < |r| && r[k] == rows[i].value
  {
    forall i | 0 <= i < |rows| && start <= rows[i].createdAt <= end
      ensures var k := |CreatedBetween(rows[..i], start, end)|;
        k < |CreatedBetween(rows, start, end)| && CreatedBetween(rows, start, end)[k] == rows[i].value
    {
      CreatedBetweenAt(rows, start, end, i);
    }
  }

  lemma {:induction false} CreatedBetweenAt<T>(rows: seq<Row<T>>, start: int, end: int, i: int)
    requires 0 <= i < |rows| && start <= rows[i].createdAt <= end
    ensures var k := |CreatedBetween(rows[..i], start, end)|;
      k < |CreatedBetween(rows, start, end)| && CreatedBetween(rows, start, end)[k] == rows[i].value
  {
    if i > 0 {
      var tail := rows[1..];
      CreatedBetweenAt(tail, start, end, i - 1);
      var prefix := rows[..i];
      assert prefix[0] == rows[0];
      assert prefix[1..] == tail[..i - 1];
    }
  }

  // ---------------------------------------------------------------------
  // The lines of the report
  // ---------------------------------------------------------------------

  function AnnouncementStatusText(s: AnnouncementStatus): string
  {
    match s
    case New => "new"
    case PendingReview => "pending_review"
    case Approved => "approved"
    case Rejected => "rejected"
    case Scheduled => "scheduled"
    case AnnouncementExecuted => "executed"
  }

  function PlanStatusText(s: TradePlanStatus): string
  {
    match s
    case Draft => "draft"
    case Queued => "queued"
    case PlanActive => "active"
    case Exited => "exited"
    case PlanCancelled => "cancelled"
    case PlanFailed => "failed"
  }

  /** `ann.symbol or '未知'`: an absent or empty symbol shows as "unknown". */
  function SymbolLabel(symbol: Option<string>): (r: string)
    ensures symbol.None? || symbol.value == [] ==> r == "未知"
    ensures symbol.Some? && symbol.value != [] ==> r == symbol.value
  {
    if symbol.Some? && symbol.value != [] then symbol.value else "未知"
  }

  /** The title of the plan's announcement if it has one, else the announcement id. */
  function PlanLabel(plan: TradePlan, announcements: map<string, Announcement>): (r: string)
    ensures plan.announcementId in announcements ==> r == announcements[plan.announcementId].title
    ensures plan.announcementId !in announcements ==> r == plan.announcementId
  {
    if plan.announcementId in announcements then announcements[plan.announcementId].title else plan.announcementId
  }

  function AnnouncementLine(a: Announcement): string
  {
    "- " + a.title + " (" + SymbolLabel(a.symbol) + ") 状态: " + AnnouncementStatusText(a.status)
  }

  function PlanLine(plan: TradePlan, announcements: map<string, Announcement>): string
  {
    "- " + PlanLabel(plan, announcements) + " -> 状态 " + PlanStatusText(plan.status)
  }

  function AnnouncementLines(anns: seq<Announcement>): (r: seq<string>)
    ensures |r| == |anns|
  {
    if anns == [] then [] else [AnnouncementLine(anns[0])] + AnnouncementLines(anns[1..])
  }

  function PlanLines(plans: seq<TradePlan>, announcements: map<string, Announcement>): (r: seq<string>)
    ensures |r| == |plans|
  {
    if plans == [] then [] else [PlanLine(plans[0], announcements)] + PlanLines(plans[1..], announcements)
  }

  lemma {:induction false} AnnouncementLinesAt(anns: seq<Announcement>, i: int)
    requires 0 <= i < |anns|
    ensures AnnouncementLines(anns)[i] == AnnouncementLine(anns[i])
  {
    if i > 0 {
      AnnouncementLinesAt(anns[1..], i - 1);
    }
  }

  lemma {:induction false} PlanLinesAt(plans: seq<TradePlan>, announcements: map<string, Announcement>, j: int)
    requires 0 <= j < |plans|
    ensures PlanLines(plans, announcements)[j] == PlanLine(plans[j], announcements)
  {
    if j > 0 {
      PlanLinesAt(plans[1..], announcements, j - 1);
    }
  }

  function HeaderLine(start: int, end: int, iso: int -> string): string
  {
    "日报区间: " + iso(start) + " - " + iso(end)
  }

  function AnnouncementCountLine(n: nat): string
  {
    "新增公告: " + NatDigits(n) + " 条"
  }

  function PlanCountLine(n: nat): string
  {
    "新建交易计划: " + NatDigits(n) + " 条"
  }

  /** The lines of the report for the selected announcements and plans. */
  function ReportLines(start: int, end: int, iso: int -> string, anns: seq<Announcement>, plans: seq<TradePlan>,
                       announcements: map<string, Announcement>): seq<string>
  {
    [HeaderLine(start, end, iso), "", AnnouncementCountLine(|anns|)] + AnnouncementLines(anns)
      + ["", PlanCountLine(|plans|)] + PlanLines(plans, announcements)
  }

  /**
   * The report has five fixed lines plus one per announcement and one per
   * plan: header, blank, announcement count, the announcements in order,
   * blank, plan count, the plans in order.
   */
  lemma ReportLayout(start: int, end: int, iso: int -> string, anns: seq<Announcement>, plans: seq<TradePlan>,
                     announcements: map<string, Announcement>)
    ensures var lines := ReportLines(start, end, iso, anns, plans, announcements);
      && |lines| == 5 + |anns| + |plans|
      && lines[0] == HeaderLine(start, end, iso) && lines[1] == ""
      && lines[2] == AnnouncementCountLine(|anns|)
      && (forall i :: 0 <= i < |anns| ==> lines[3 + i] == AnnouncementLine(anns[i]))
      && lines[3 + |anns|] == "" && lines[4 + |anns|] == PlanCountLine(|plans|)
      && (forall j :: 0 <= j < |plans| ==> lines[5 + |anns| + j] == PlanLine(plans[j], announcements))
  {
    var lines := ReportLines(start, end, iso, anns, plans, announcements);
    forall i | 0 <= i < |anns|
      ensures lines[3 + i] == AnnouncementLine(anns[i])
    {
      AnnouncementLinesAt(anns, i);
    }
    forall j | 0 <= j < |plans|
      ensures lines[5 + |anns| + j] == PlanLine(plans[j], announcements)
    {
      PlanLinesAt(plans, announcements, j);
    }
  }

  /** The report text: the lines joined with line breaks. */
  function ReportText(now: int, iso: int -> string, annRows: seq<Row<Announcement>>, planRows: seq<Row<TradePlan>>,
                      announcements: map<string, Announcement>): string
  {
    var (start, end) := ReportWindow(now);
    Join(ReportLines(start, end, iso, CreatedBetween(annRows, start, end), CreatedBetween(planRows, start, end), announcements), "\n")
  }

  /** With no line break inside any line, the report splits back into its lines. */
  lemma ReportSplitsIntoLines(start: int, end: int, iso: int -> string, anns: seq<Announcement>, plans: seq<TradePlan>,
                              announcements: map<string, Announcement>)
    requires forall i :: 0 <= i < |ReportLines(start, end, iso, anns, plans, announcements)| ==>
      '\n' !in ReportLines(start, end, iso, anns, plans, announcements)[i]
    ensures Split(Join(ReportLines(start, end, iso, anns, plans, announcements), "\n"), '\n') ==
      ReportLines(start, end, iso, anns, plans, announcements)
  {
    SplitJoin(ReportLines(start, end, iso, anns, plans, announcements), '\n');
  }

  /** `build_report`: the header lines, then the two loops appending one line per announcement and per plan. */
  method BuildReport(now: int, iso: int -> string, annRows: seq<Row<Announcement>>, planRows: seq<Row<TradePlan>>,
                     announcements: map<string, Announcement>) returns (body: string)
    ensures body == ReportText(now, iso, annRows, planRows, announcements)
  {
    var midnight := now - now % DayMs;
    var start := midnight - DayMs;
    var end := start + DayMs;
    var anns := CreatedBetween(annRows, start, end);
    var trades := CreatedBetween(planRows, start, end);
    var lines := [HeaderLine(start, end, iso), "", AnnouncementCountLine(|anns|)];
    lines := AppendAnnouncementLines(lines, anns);
    lines := lines + [""];
    lines := lines + [PlanCountLine(|trades|)];
    assert lines == [HeaderLine(start, end, iso), "", AnnouncementCountLine(|anns|)] + AnnouncementLines(anns)
      + ["", PlanCountLine(|trades|)];
    lines := AppendPlanLines(lines, trades, announcements);
    assert (start, end) == ReportWindow(now);
    assert lines == ReportLines(start, end, iso, anns, trades, announcements);
    body := Join(lines, "\n");
  }

  /** The announcement loop of `build_report`. */
  method AppendAnnouncementLines(lines0: seq<string>, anns: seq<Announcement>) returns (lines: seq<string>)
    ensures lines == lines0 + AnnouncementLines(anns)
  {
    lines := lines0;
    var i := 0;
    while i < |anns|
      invariant 0 <= i <= |anns|
      invariant lines + AnnouncementLines(anns[i..]) == lines0 + AnnouncementLines(anns)
    {
      assert anns[i..][0] == anns[i] && anns[i..][1..] == anns[i + 1..];
      assert lines + AnnouncementLines(anns[i..]) == (lines + [AnnouncementLine(anns[i])]) + AnnouncementLines(anns[i + 1..]);
      lines := lines + [AnnouncementLine(anns[i])];
      i := i + 1;
    }
    assert anns[i..] == [];
  }

  /** The plan loop of `build_report`. */
  method AppendPlanLines(lines0: seq<string>, trades: seq<TradePlan>, announcements: map<string, Announcement>)
    returns (lines: seq<string>)
    ensures lines == lines0 + PlanLines(trades, announcements)
  {
    lines := lines0;
    var j := 0;
    while j < |trades|
      invariant 0 <= j <= |trades|
      invariant lines + PlanLines(trades[j..], announcements) == lines0 + PlanLines(trades, announcements)
    {
      assert trades[j..][0] == trades[j] && trades[j..][1..] == trades[j + 1..];
      assert lines + PlanLines(trades[j..], announcements) ==
        (lines + [PlanLine(trades[j], announcements)]) + PlanLines(trades[j + 1..], announcements);
      lines := lines + [PlanLine(trades[j], announcements)];
      j := j + 1;
    }
    assert trades[j..] == [];
  }
}
