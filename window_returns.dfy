/**
 * Post-listing returns per analysis window ("5m", "1h", ...): parse the
 * window labels, take the entry at the first minute bar's close (hour bar
 * if there are no minute bars), find the close of the bar covering the
 * window's end, and store one return per window not stored before.
 * The kline fetches are parameters; times are in milliseconds.
 */
module WindowReturns {
  import opened Common

  // ---------------------------------------------------------------------
  // Window labels
  // ---------------------------------------------------------------------

  /** Python's `int(s)` on an optionally signed run of ASCII digits; None where it raises. */
  function ParseInt(s: string): (r: Option<int>)
  {
    if s != [] && (s[0] == '-' || s[0] == '+') then
      if |s| > 1 && AllDigits(s[1..]) then
        var magnitude: int := DigitsValue(s[1..]);
        Some(if s[0] == '-' then -magnitude else magnitude)
      else None
    else if s != [] && AllDigits(s) then Some(DigitsValue(s))
    else None
  }

  /**
   * `_window_seconds`: the last character is the unit; "m" in either case
   * means minutes and any other unit hours. An empty label or a
   * non-integer prefix raises.
   */
  function WindowSeconds(name: string): Result<int>
  {
    if name == [] then Err("string index out of range")
    else
      var value := ParseInt(name[..|name| - 1]);
      if value.None? then Err("invalid literal for int()")
      else if LowerChar(name[|name| - 1]) == 'm' then Ok(value.value * 60)
      else Ok(value.value * 3600)
  }

  /**
   * A label made of a number and a unit is that many minutes for "m" or
   * "M", and that many hours for every other unit character.
   */
  lemma WindowSecondsOfLabel(n: nat, unit: char)
    ensures WindowSeconds(NatDigits(n) + [unit]) == Ok(if unit == 'm' || unit == 'M' then n * 60 else n * 3600)
  {
    var text := NatDigits(n) + [unit];
    assert text[..|text| - 1] == NatDigits(n);
    NatDigitsValue(n);
  }

  /** "30s" is read as 30 hours; the empty label and "m" alone raise. */
  lemma WindowSecondsQuirks()
    ensures WindowSeconds("30s") == Ok(108000)
    ensures WindowSeconds("").Err? && WindowSeconds("m").Err?
  {
    WindowSecondsOfLabel(30, 's');
    assert NatDigits(30) + ['s'] == "30s" by {
      assert NatDigits(3) == "3";
    }
  }

  // ---------------------------------------------------------------------
  // Prices
  // ---------------------------------------------------------------------

  /** A kline: open time (ms), close, and the interval it was fetched with. */
  datatype KBar = KBar(openTime: int, close: real, interval: string)

  /** `_entry_price`: the first bar's close. */
  function EntryPrice(bars: seq<KBar>): (r: Option<real>)
    ensures r.None? <==> bars == []
    ensures r.Some? ==> r.value == bars[0].close
  {
    if bars == [] then None else Some(bars[0].close)
  }

  function IntervalMs(b: KBar): int
  {
    if b.interval == "1m" then 60000 else 3600000
  }

  predicate Covers(b: KBar, t: int)
  {
    b.openTime <= t < b.openTime + IntervalMs(b)
  }

  /** The bars `_price_at` searches: minute bars up to an hour, hour bars beyond. */
  function PriceSource(seconds: int, minuteBars: seq<KBar>, hourBars: seq<KBar>): seq<KBar>
  {
    if seconds <= 3600 then minuteBars else hourBars
  }

  /** The close of the first bar from `i` covering `t`, else the last bar's close. */
  function CloseAt(bars: seq<KBar>, t: int, i: nat): real
    requires i < |bars|
    decreases |bars| - i
  {
    if Covers(bars[i], t) then bars[i].close
    else if i == |bars| - 1 then bars[i].close
    else CloseAt(bars, t, i + 1)
  }

  /** `_price_at`: the window end is the first bar's open time plus the window. */
  function PriceAt(seconds: int, minuteBars: seq<KBar>, hourBars: seq<KBar>): Option<real>
  {
    var source := PriceSource(seconds, minuteBars, hourBars);
    if source == [] then None
    else Some(CloseAt(source, source[0].openTime + seconds * 1000, 0))
  }

  /**
   * The price is the close of the first bar covering the target, or the
   * last close when none covers it.
   */
  lemma {:induction false} CloseAtSpec(bars: seq<KBar>, t: int, i: nat)
    requires i < |bars|
    ensures var c := CloseAt(bars, t, i);
      || (exists k :: i <= k < |bars| && Covers(bars[k], t) && c == bars[k].close &&
            forall j :: i <= j < k ==> !Covers(bars[j], t))
      || ((forall j :: i <= j < |bars| ==> !Covers(bars[j], t)) && c == bars[|bars| - 1].close)
    decreases |bars| - i
  {
    if !Covers(bars[i], t) && i < |bars| - 1 {
      CloseAtSpec(bars, t, i + 1);
    }
  }

  /** `_price_at`: the search loop. */
  method PriceAtSearch(seconds: int, minuteBars: seq<KBar>, hourBars: seq<KBar>) returns (price: Option<real>)
    ensures price == PriceAt(seconds, minuteBars, hourBars)
  {
    var source := if seconds <= 3600 then minuteBars else hourBars;
    if source == [] {
      return None;
    }
    var target := source[0].openTime + seconds * 1000;
    var i := 0;
    while i < |source|
      invariant 0 <= i <= |source|
      invariant forall j :: 0 <= j < i ==> !Covers(source[j], target)
      invariant i < |source| ==> CloseAt(source, target, 0) == CloseAt(source, target, i)
      invariant i == |source| ==> CloseAt(source, target, 0) == source[|source| - 1].close
    {
      var bar := source[i];
      var intervalMs := if bar.interval == "1m" then 60000 else 3600000;
      if bar.openTime <= target < bar.openTime + intervalMs {
        return Some(bar.close);
      }
      i := i + 1;
    }
    price := Some(source[|source| - 1].close);
  }

  // ---------------------------------------------------------------------
  // Returns for one announcement
  // ---------------------------------------------------------------------

  datatype AnnouncementReturn = AnnouncementReturn(
    announcementId: string, windowLabel: string, windowSeconds: int,
    entryPrice: real, exitPrice: real, returnPct: Option<real>, dataSource: string)

  /** The configured windows with their lengths; the first bad label raises. */
  function Targets(windows: seq<string>): (r: Result<seq<(string, int)>>)
    ensures r.Ok? ==> |r.value| == |windows| &&
                      forall i :: 0 <= i < |windows| ==>
                        WindowSeconds(windows[i]).Ok? && r.value[i] == (windows[i], WindowSeconds(windows[i]).value)
    ensures r.Err? <==> exists i :: 0 <= i < |windows| && WindowSeconds(windows[i]).Err?
  {
    if windows == [] then Ok([])
    else
      var w := WindowSeconds(windows[0]);
      if w.Err? then Err(w.error)
      else
        var rest := Targets(windows[1..]);
        if rest.Err? then rest
        else
          assert forall i :: 1 <= i < |windows| ==> windows[i] == windows[1..][i - 1];
          Ok([(windows[0], w.value)] + rest.value)
  }

  /** The targets whose label is not stored yet, in order. */
  function Pending(targets: seq<(string, int)>, existing: set<string>): (r: seq<(string, int)>)
    ensures forall x :: x in r <==> x in targets && x.0 !in existing
  {
    if targets == [] then []
    else
      var rest := Pending(targets[1..], existing);
      assert forall x :: x in targets <==> x == targets[0] || x in targets[1..];
      if targets[0].0 !in existing then [targets[0]] + rest else rest
  }

  /** The return over `entry`, or None for a zero entry. */
  function ReturnPct(price: real, entry: real): Option<real>
  {
    if entry != 0.0 then Some((price - entry) / entry) else None
  }

  /** One record per pending window with a price. */
  function NewReturns(announcementId: string, pending: seq<(string, int)>, entry: real,
                      minuteBars: seq<KBar>, hourBars: seq<KBar>): seq<AnnouncementReturn>
  {
    if pending == [] then []
    else
      var (windowLabel, seconds) := pending[0];
      var price := PriceAt(seconds, minuteBars, hourBars);
      var rest := NewReturns(announcementId, pending[1..], entry, minuteBars, hourBars);
      if price.None? then rest
      else [AnnouncementReturn(announcementId, windowLabel, seconds, entry, price.value, ReturnPct(price.value, entry), "mark_price")] + rest
  }

  /** `NewReturns` unfolded at position `i` of the pending windows. */
  lemma NewReturnsAt(announcementId: string, pending: seq<(string, int)>, i: int, entry: real,
                     minuteBars: seq<KBar>, hourBars: seq<KBar>)
    requires 0 <= i < |pending|
    ensures var price := PriceAt(pending[i].1, minuteBars, hourBars);
      var rest := NewReturns(announcementId, pending[i + 1..], entry, minuteBars, hourBars);
      NewReturns(announcementId, pending[i..], entry, minuteBars, hourBars) ==
        if price.None? then rest
        else [AnnouncementReturn(announcementId, pending[i].0, pending[i].1, entry, price.value, ReturnPct(price.value, entry), "mark_price")] + rest
  {
    assert pending[i..][0] == pending[i] && pending[i..][1..] == pending[i + 1..];
  }

  /**
   * Each record is for a pending window with a price: it carries that
   * window, the price as exit, and the return on the entry; and every
   * pending window with a price gets a record.
   */
  lemma {:induction false} NewReturnsSpec(announcementId: string, pending: seq<(string, int)>, entry: real,
                                          minuteBars: seq<KBar>, hourBars: seq<KBar>)
    ensures var recs := NewReturns(announcementId, pending, entry, minuteBars, hourBars);
      && (forall r :: r in recs ==>
            && (r.windowLabel, r.windowSeconds) in pending
            && PriceAt(r.windowSeconds, minuteBars, hourBars) == Some(r.exitPrice)
            && r.announcementId == announcementId && r.entryPrice == entry
            && r.returnPct == ReturnPct(r.exitPrice, entry))
      && (forall x :: x in pending && PriceAt(x.1, minuteBars, hourBars).Some? ==>
            exists r :: r in recs && r.windowLabel == x.0 && r.windowSeconds == x.1)
  {
    if pending != [] {
      NewReturnsSpec(announcementId, pending[1..], entry, minuteBars, hourBars);
      var recs := NewReturns(announcementId, pending, entry, minuteBars, hourBars);
      var rest := NewReturns(announcementId, pending[1..], entry, minuteBars, hourBars);
      assert forall x :: x in pending <==> x == pending[0] || x in pending[1..];
      var (windowLabel, seconds) := pending[0];
      var price := PriceAt(seconds, minuteBars, hourBars);
      if price.Some? {
        var r0 := AnnouncementReturn(announcementId, windowLabel, seconds, entry, price.value, ReturnPct(price.value, entry), "mark_price");
        assert recs == [r0] + rest;
        assert r0 in recs;
        forall x | x in pending && PriceAt(x.1, minuteBars, hourBars).Some?
          ensures exists r :: r in recs && r.windowLabel == x.0 && r.windowSeconds == x.1
        {
          if x != pending[0] {
            var r :| r in rest && r.windowLabel == x.0 && r.windowSeconds == x.1;
            assert r in recs;
          }
        }
      }
    }
  }

  /** No two pairs share a label. */
  predicate DistinctFirsts(xs: seq<(string, int)>)
  {
    forall i, j :: 0 <= i < j < |xs| ==> xs[i].0 != xs[j].0
  }

  /** No two records share a window label: the unique (announcement, window) pair for one announcement. */
  predicate DistinctLabels(recs: seq<AnnouncementReturn>)
  {
    forall i, j :: 0 <= i < j < |recs| ==> recs[i].windowLabel != recs[j].windowLabel
  }

  /** The pending targets of targets with distinct labels have distinct labels. */
  lemma {:induction false} PendingDistinct(targets: seq<(string, int)>, existing: set<string>)
    requires DistinctFirsts(targets)
    ensures DistinctFirsts(Pending(targets, existing))
  {
    if targets != [] {
      var rest := Pending(targets[1..], existing);
      assert DistinctFirsts(targets[1..]) by {
        forall i, j | 0 <= i < j < |targets[1..]| ensures targets[1..][i].0 != targets[1..][j].0 {
          assert targets[1..][i] == targets[i + 1] && targets[1..][j] == targets[j + 1];
        }
      }
      PendingDistinct(targets[1..], existing);
      if targets[0].0 !in existing {
        var p := [targets[0]] + rest;
        forall i, j | 0 <= i < j < |p| ensures p[i].0 != p[j].0 {
          if i == 0 {
            assert p[j] == rest[j - 1] && rest[j - 1] in rest;
            var k :| 0 <= k < |targets[1..]| && targets[1..][k] == p[j];
            assert targets[k + 1] == p[j];
          } else {
            assert p[i] == rest[i - 1] && p[j] == rest[j - 1];
          }
        }
      }
    }
  }

  /** Every record's label is the label of one of the pending windows. */
  lemma {:induction false} NewReturnsLabels(announcementId: string, pending: seq<(string, int)>, entry: real,
                                            minuteBars: seq<KBar>, hourBars: seq<KBar>)
    ensures forall r :: r in NewReturns(announcementId, pending, entry, minuteBars, hourBars) ==>
      exists k :: 0 <= k < |pending| && pending[k].0 == r.windowLabel
  {
    if pending != [] {
      NewReturnsLabels(announcementId, pending[1..], entry, minuteBars, hourBars);
      var rest := NewReturns(announcementId, pending[1..], entry, minuteBars, hourBars);
      var recs := NewReturns(announcementId, pending, entry, minuteBars, hourBars);
      forall r | r in recs ensures exists k :: 0 <= k < |pending| && pending[k].0 == r.windowLabel {
        if r in rest {
          var k :| 0 <= k < |pending[1..]| && pending[1..][k].0 == r.windowLabel;
          assert pending[k + 1] == pending[1..][k];
        } else {
          assert pending[0].0 == r.windowLabel;
        }
      }
    }
  }

  /** Pending windows with distinct labels give records with distinct labels. */
  lemma {:induction false} NewReturnsDistinct(announcementId: string, pending: seq<(string, int)>, entry: real,
                                              minuteBars: seq<KBar>, hourBars: seq<KBar>)
    requires DistinctFirsts(pending)
    ensures DistinctLabels(NewReturns(announcementId, pending, entry, minuteBars, hourBars))
  {
    if pending != [] {
      var tail := pending[1..];
      var rest := NewReturns(announcementId, tail, entry, minuteBars, hourBars);
      assert DistinctFirsts(tail) by {
        forall i, j | 0 <= i < j < |tail| ensures tail[i].0 != tail[j].0 {
          assert tail[i] == pending[i + 1] && tail[j] == pending[j + 1];
        }
      }
      NewReturnsDistinct(announcementId, tail, entry, minuteBars, hourBars);
      var price := PriceAt(pending[0].1, minuteBars, hourBars);
      if price.Some? {
        NewReturnsLabels(announcementId, tail, entry, minuteBars, hourBars);
        var r0 := AnnouncementReturn(announcementId, pending[0].0, pending[0].1, entry, price.value, ReturnPct(price.value, entry), "mark_price");
        var recs := [r0] + rest;
        forall i, j | 0 <= i < j < |recs| ensures recs[i].windowLabel != recs[j].windowLabel {
          if i == 0 {
            assert recs[j] == rest[j - 1] && rest[j - 1] in rest;
            var k :| 0 <= k < |tail| && tail[k].0 == recs[j].windowLabel;
            assert tail[k] == pending[k + 1];
          } else {
            assert recs[i] == rest[i - 1] && recs[j] == rest[j - 1];
          }
        }
      }
    }
  }

  /**
   * `compute_for_announcement` on values: the records to add. Bad window
   * labels raise; nothing is added when every window is stored or when
   * there are no bars at all; and records that repeat a window label (a
   * label listed twice in the settings) break the unique (announcement,
   * window) pair, so the commit raises.
   */
  function ComputeReturns(announcementId: string, windows: seq<string>, existing: set<string>,
                          minuteBars: seq<KBar>, hourBars: seq<KBar>): Result<seq<AnnouncementReturn>>
  {
    var targets := Targets(windows);
    if targets.Err? then Err(targets.error)
    else
      var pending := Pending(targets.value, existing);
      if pending == [] then Ok([])
      else if minuteBars == [] && hourBars == [] then Ok([])
      else
        var entry := EntryPrice(if minuteBars != [] then minuteBars else hourBars);
        if entry.None? then Ok([])
        else
          var recs := NewReturns(announcementId, pending, entry.value, minuteBars, hourBars);
          if DistinctLabels(recs) then Ok(recs) else Err(DuplicateWindowError)
  }

  const DuplicateWindowError := "IntegrityError: duplicate key value violates unique constraint \"uq_return_window_codex\""

  /**
   * Only labels not stored yet get a record, each at most once; nothing is
   * added without a pending window or without bars; the entry is the first
   * minute close when there are minute bars, the first hour close
   * otherwise; a bad label raises, and with good, distinct labels nothing
   * raises.
   */
  lemma ComputeReturnsSpec(announcementId: string, windows: seq<string>, existing: set<string>,
                           minuteBars: seq<KBar>, hourBars: seq<KBar>)
    ensures var r := ComputeReturns(announcementId, windows, existing, minuteBars, hourBars);
      && ((exists i :: 0 <= i < |windows| && WindowSeconds(windows[i]).Err?) ==> r.Err?)
      && (((forall i, j :: 0 <= i < j < |windows| ==> windows[i] != windows[j]) &&
           (forall i :: 0 <= i < |windows| ==> WindowSeconds(windows[i]).Ok?)) ==> r.Ok?)
      && (r.Ok? ==> DistinctLabels(r.value))
      && (r.Ok? ==> forall a :: a in r.value ==> a.windowLabel in windows && a.windowLabel !in existing)
      && (r.Ok? && (forall w :: w in windows ==> w in existing) ==> r.value == [])
      && (minuteBars == [] && hourBars == [] && r.Ok? ==> r.value == [])
      && (r.Ok? ==> forall a :: a in r.value ==>
            a.entryPrice == (if minuteBars != [] then minuteBars[0].close else hourBars[0].close))
  {
    var targets := Targets(windows);
    if targets.Ok? {
      var pending := Pending(targets.value, existing);
      if pending != [] && (minuteBars != [] || hourBars != []) {
        var entry := EntryPrice(if minuteBars != [] then minuteBars else hourBars);
        NewReturnsSpec(announcementId, pending, entry.value, minuteBars, hourBars);
        forall a | a in NewReturns(announcementId, pending, entry.value, minuteBars, hourBars)
          ensures a.windowLabel in windows
        {
          var i :| 0 <= i < |windows| && targets.value[i] == (a.windowLabel, a.windowSeconds);
        }
        if forall i, j :: 0 <= i < j < |windows| ==> windows[i] != windows[j] {
          assert DistinctFirsts(targets.value);
          PendingDistinct(targets.value, existing);
          NewReturnsDistinct(announcementId, pending, entry.value, minuteBars, hourBars);
        }
      }
    }
  }

  /**
   * A good window listed twice, not stored, whose price exists: both
   * records are added and the commit raises.
   */
  lemma RepeatedWindowRaises(announcementId: string, w: string, existing: set<string>, minuteBars: seq<KBar>, hourBars: seq<KBar>)
    requires WindowSeconds(w).Ok? && w !in existing && (minuteBars != [] || hourBars != [])
    requires PriceAt(WindowSeconds(w).value, minuteBars, hourBars).Some?
    ensures ComputeReturns(announcementId, [w, w], existing, minuteBars, hourBars).Err?
  {
    var t := (w, WindowSeconds(w).value);
    assert Targets([w, w]).value == [t, t];
    RepeatedPending(t, existing);
    var entry := EntryPrice(if minuteBars != [] then minuteBars else hourBars);
    RepeatedWindowRecords(announcementId, t, entry.value, minuteBars, hourBars);
  }

  lemma RepeatedPending(t: (string, int), existing: set<string>)
    requires t.0 !in existing
    ensures Pending([t, t], existing) == [t, t]
  {
    assert [t, t][1..] == [t];
    assert [t][1..] == [];
    assert Pending([t], existing) == [t];
  }

  lemma RepeatedWindowRecords(announcementId: string, t: (string, int), entry: real, minuteBars: seq<KBar>, hourBars: seq<KBar>)
    requires PriceAt(t.1, minuteBars, hourBars).Some?
    ensures !DistinctLabels(NewReturns(announcementId, [t, t], entry, minuteBars, hourBars))
  {
    assert [t, t][1..] == [t];
    assert [t][1..] == [];
    var price := PriceAt(t.1, minuteBars, hourBars).value;
    var r := AnnouncementReturn(announcementId, t.0, t.1, entry, price, ReturnPct(price, entry), "mark_price");
    assert NewReturns(announcementId, [t], entry, minuteBars, hourBars) == [r] + [];
    var recs := NewReturns(announcementId, [t, t], entry, minuteBars, hourBars);
    assert recs == [r] + [r];
    assert recs[0].windowLabel == recs[1].windowLabel;
  }

  class ReturnStore {
    var rows: seq<AnnouncementReturn>

    constructor (initial: seq<AnnouncementReturn>)
      ensures rows == initial
    {
      rows := initial;
    }

    /** The labels already stored for an announcement. */
    function ExistingLabels(announcementId: string): set<string>
      reads this
    {
      set r | r in rows && r.announcementId == announcementId :: r.windowLabel
    }

    /**
     * `compute_for_announcement`: adds the new records, or raises, adding
     * nothing, on a bad window label or when the records repeat a label
     * (the commit fails on the unique (announcement, window) pair).
     */
    method ComputeForAnnouncement(announcementId: string, windows: seq<string>, minuteBars: seq<KBar>, hourBars: seq<KBar>)
      returns (r: Result<nat>)
      modifies this
      ensures var expected := ComputeReturns(announcementId, windows, old(ExistingLabels(announcementId)), minuteBars, hourBars);
        && (expected.Err? ==> r.Err? && rows == old(rows))
        && (expected.Ok? ==> r == Ok(|expected.value|) && rows == old(rows) + expected.value)
    {
      var existing := ExistingLabels(announcementId);
      var targets := Targets(windows);
      if targets.Err? {
        return Err(targets.error);
      }
      var pending := Pending(targets.value, existing);
      if pending == [] {
        return Ok(0);
      }
      if minuteBars == [] && hourBars == [] {
        return Ok(0);
      }
      var entry := EntryPrice(if minuteBars != [] then minuteBars else hourBars);
      var before := rows;
      var added := AppendReturns(announcementId, pending, entry.value, minuteBars, hourBars);
      if !DistinctLabels(added) {
        rows := before;
        return Err(DuplicateWindowError);
      }
      r := Ok(|added|);
    }

    /** The loop of `compute_for_announcement`: one record per pending window with a price. */
    method AppendReturns(announcementId: string, pending: seq<(string, int)>, entry: real,
                         minuteBars: seq<KBar>, hourBars: seq<KBar>) returns (added: seq<AnnouncementReturn>)
      modifies this
      ensures added == NewReturns(announcementId, pending, entry, minuteBars, hourBars)
      ensures rows == old(rows) + added
    {
      added := [];
      var i := 0;
      while i < |pending|
        invariant 0 <= i <= |pending|
        invariant rows == old(rows) + added
        invariant NewReturns(announcementId, pending, entry, minuteBars, hourBars) ==
          added + NewReturns(announcementId, pending[i..], entry, minuteBars, hourBars)
      {
        var (windowLabel, seconds) := pending[i];
        NewReturnsAt(announcementId, pending, i, entry, minuteBars, hourBars);
        var price := PriceAtSearch(seconds, minuteBars, hourBars);
        if price.Some? {
          var pct := if entry != 0.0 then Some((price.value - entry) / entry) else None;
          var record := AnnouncementReturn(announcementId, windowLabel, seconds, entry, price.value, pct, "mark_price");
          PushAssoc(added, record, NewReturns(announcementId, pending[i + 1..], entry, minuteBars, hourBars));
          rows := rows + [record];
          added := added + [record];
        }
        i := i + 1;
      }
      assert pending[i..] == [];
      assert added + [] == added;
    }
  }
}
