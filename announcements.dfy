/**
 * Announcements: the symbol extraction applied to every fetched
 * announcement, the "_jp" relabelling of the Japanese feed, and the sync
 * that stores the new announcements of a fetch without duplicating a
 * source id.  The HTTP fetch is a parameter.
 */
module Announcements {
  import opened Common

  datatype AnnouncementStatus = New | PendingReview | Approved | Rejected | Scheduled | AnnouncementExecuted

  /** A fetched announcement after parsing; JSON metadata is a map of text values. */
  datatype Item = Item(
    sourceId: string, source: string, title: string, content: string, symbol: Option<string>,
    listingTime: Option<int>, timezoneLabel: Option<string>, url: Option<string>, metadata: map<string, string>)

  /** A stored announcement. */
  datatype Announcement = Announcement(
    id: string, sourceId: string, source: string, title: string, content: string, symbol: Option<string>,
    listingTime: Option<int>, timezoneLabel: Option<string>, status: AnnouncementStatus, url: Option<string>,
    metadata: map<string, string>)

  // ---------------------------------------------------------------------
  // Symbol extraction
  // ---------------------------------------------------------------------

  predicate IsUpperAlnum(c: char) { IsUpperLetter(c) || IsDigit(c) }

  /** `([A-Z]{3,10})USDT` matches at `i` with a capture of length `k`. */
  predicate UsdtMatch(s: string, i: nat, k: nat)
  {
    3 <= k <= 10 && i + k + 4 <= |s| &&
    (forall j :: i <= j < i + k ==> IsUpperLetter(s[j])) &&
    s[i + k..i + k + 4] == "USDT"
  }

  /** The greedy capture at `i`: the longest length, from `k` down to 3, that is followed by "USDT". */
  function LongestUsdtAt(s: string, i: nat, k: nat): (r: Option<nat>)
    requires 3 <= k <= 10
    ensures r.Some? ==> UsdtMatch(s, i, r.value) && r.value <= k
    ensures r.Some? ==> forall k' :: r.value < k' <= k ==> !UsdtMatch(s, i, k')
    ensures r.None? ==> forall k' :: 3 <= k' <= k ==> !UsdtMatch(s, i, k')
    decreases k
  {
    if UsdtMatch(s, i, k) then Some(k)
    else if k == 3 then None
    else LongestUsdtAt(s, i, k - 1)
  }

  /** The leftmost match from position `i`, as (start, capture length). */
  function FirstUsdt(s: string, i: nat): (r: Option<(nat, nat)>)
    ensures r.Some? ==> i <= r.value.0 && UsdtMatch(s, r.value.0, r.value.1)
    decreases |s| - i
  {
    if i >= |s| then None
    else
      var k := LongestUsdtAt(s, i, 10);
      if k.Some? then Some((i, k.value)) else FirstUsdt(s, i + 1)
  }

  /** The match found is the leftmost one from `i`, with the longest capture there. */
  lemma {:induction false} FirstUsdtLeftmost(s: string, i: nat)
    ensures var r := FirstUsdt(s, i);
      && (r.Some? ==> forall k' :: r.value.1 < k' <= 10 ==> !UsdtMatch(s, r.value.0, k'))
      && (r.Some? ==> forall j, k' :: i <= j < r.value.0 && 3 <= k' <= 10 ==> !UsdtMatch(s, j, k'))
    decreases |s| - i
  {
    if i < |s| {
      var k := LongestUsdtAt(s, i, 10);
      if k.None? {
        assert FirstUsdt(s, i) == FirstUsdt(s, i + 1);
        FirstUsdtLeftmost(s, i + 1);
      } else {
        assert FirstUsdt(s, i) == Some((i, k.value));
      }
    }
  }

  /** When no match is found from `i`, the pattern matches nowhere from `i`. */
  lemma {:induction false} FirstUsdtNoMatch(s: string, i: nat)
    ensures FirstUsdt(s, i).None? ==> forall j, k' :: i <= j && 3 <= k' <= 10 ==> !UsdtMatch(s, j, k')
    decreases |s| - i
  {
    if i < |s| && LongestUsdtAt(s, i, 10).None? {
      assert FirstUsdt(s, i) == FirstUsdt(s, i + 1);
      FirstUsdtNoMatch(s, i + 1);
    }
  }

  /** `\(([A-Z0-9]{3,10})\)` matches at `i` with a capture of length `k`. */
  predicate ParenMatch(s: string, i: nat, k: nat)
  {
    3 <= k <= 10 && i + k + 2 <= |s| && s[i] == '(' &&
    (forall j :: i + 1 <= j < i + 1 + k ==> IsUpperAlnum(s[j])) &&
    s[i + 1 + k] == ')'
  }

  function ParenAt(s: string, i: nat, k: nat): (r: Option<nat>)
    requires 3 <= k <= 10
    ensures r.Some? ==> ParenMatch(s, i, r.value)
    ensures r.None? ==> forall k' :: 3 <= k' <= k ==> !ParenMatch(s, i, k')
    decreases k
  {
    if ParenMatch(s, i, k) then Some(k)
    else if k == 3 then None
    else ParenAt(s, i, k - 1)
  }

  function FirstParen(s: string, i: nat): (r: Option<(nat, nat)>)
    ensures r.Some? ==> i <= r.value.0 && ParenMatch(s, r.value.0, r.value.1)
    decreases |s| - i
  {
    if i >= |s| then None
    else
      var k := ParenAt(s, i, 10);
      if k.Some? then Some((i, k.value)) else FirstParen(s, i + 1)
  }

  /** The parenthesised match found is the leftmost one from `i`; when none is found there is none. */
  lemma {:induction false} FirstParenLeftmost(s: string, i: nat)
    ensures var r := FirstParen(s, i);
      && (r.Some? ==> forall j, k' :: i <= j < r.value.0 && 3 <= k' <= 10 ==> !ParenMatch(s, j, k'))
      && (r.None? ==> forall j, k' :: i <= j && 3 <= k' <= 10 ==> !ParenMatch(s, j, k'))
    decreases |s| - i
  {
    if i < |s| {
      var k := ParenAt(s, i, 10);
      if k.None? {
        assert FirstParen(s, i) == FirstParen(s, i + 1);
        FirstParenLeftmost(s, i + 1);
      } else {
        assert FirstParen(s, i) == Some((i, k.value));
      }
    }
  }

  /**
   * `_extract_symbol`: the first `XXXUSDT` capture in the upper-cased
   * title and content joined without a separator, else the first
   * parenthesised code in the title as written, else None.
   */
  function ExtractSymbol(title: string, content: string): Option<string>
  {
    SymbolIn(Upper(title) + Upper(content), title)
  }

  /** The extraction on the joined, upper-cased text `s` with the title as written. */
  function SymbolIn(s: string, title: string): Option<string>
  {
    var m := FirstUsdt(s, 0);
    if m.Some? then Some(s[m.value.0..m.value.0 + m.value.1])
    else
      var p := FirstParen(title, 0);
      if p.Some? then Some(title[p.value.0 + 1..p.value.0 + 1 + p.value.1])
      else None
  }

  /** An extracted symbol is 3 to 10 upper-case letters or digits. */
  lemma ExtractSymbolShape(title: string, content: string)
    ensures var r := ExtractSymbol(title, content);
      r.Some? ==> 3 <= |r.value| <= 10 && forall c :: c in r.value ==> IsUpperAlnum(c)
  {
    var s := Upper(title) + Upper(content);
    var m := FirstUsdt(s, 0);
    if m.Some? {
      UsdtCaptureLetters(s, m.value.0, m.value.1);
    } else {
      var p := FirstParen(title, 0);
      if p.Some? {
        ParenCaptureAlnum(title, p.value.0, p.value.1);
      }
    }
  }

  lemma UsdtCaptureLetters(s: string, i: nat, k: nat)
    requires UsdtMatch(s, i, k)
    ensures forall c :: c in s[i..i + k] ==> IsUpperLetter(c)
  {
    forall c | c in s[i..i + k] ensures IsUpperLetter(c) {
      var j :| 0 <= j < k && s[i..i + k][j] == c;
      assert s[i + j] == c;
    }
  }

  lemma ParenCaptureAlnum(s: string, i: nat, k: nat)
    requires ParenMatch(s, i, k)
    ensures forall c :: c in s[i + 1..i + 1 + k] ==> IsUpperAlnum(c)
  {
    forall c | c in s[i + 1..i + 1 + k] ensures IsUpperAlnum(c) {
      var j :| 0 <= j < k && s[i + 1..i + 1 + k][j] == c;
      assert s[i + 1 + j] == c;
    }
  }

  /**
   * The `USDT` pattern takes precedence: when the joined, upper-cased text
   * `s` has a match, the symbol is its leftmost, longest capture, made of
   * letters (`ExtractSymbol` is `SymbolIn` on that text).
   */
  lemma SymbolInPrefersUsdt(s: string, title: string)
    requires FirstUsdt(s, 0).Some?
    ensures var m := FirstUsdt(s, 0).value;
      && SymbolIn(s, title) == Some(s[m.0..m.0 + m.1])
      && forall c :: c in s[m.0..m.0 + m.1] ==> IsUpperLetter(c)
  {
    var m := FirstUsdt(s, 0).value;
    UsdtCaptureLetters(s, m.0, m.1);
  }

  ghost predicate HasUsdtMatch(s: string)
  {
    exists j: nat, k: nat :: UsdtMatch(s, j, k)
  }

  ghost predicate HasParenMatch(s: string)
  {
    exists j: nat, k: nat :: ParenMatch(s, j, k)
  }

  /** No symbol is extracted exactly when neither pattern occurs anywhere. */
  lemma ExtractSymbolNone(title: string, content: string)
    ensures ExtractSymbol(title, content).None? <==>
      !HasUsdtMatch(Upper(title) + Upper(content)) && !HasParenMatch(title)
  {
    var s := Upper(title) + Upper(content);
    var m := FirstUsdt(s, 0);
    if m.Some? {
      assert UsdtMatch(s, m.value.0, m.value.1);
    } else {
      var p := FirstParen(title, 0);
      if p.Some? {
        assert ParenMatch(title, p.value.0, p.value.1);
      } else {
        FirstUsdtNoMatch(s, 0);
        FirstParenLeftmost(title, 0);
        assert !HasUsdtMatch(s) by {
          forall j: nat, k: nat ensures !UsdtMatch(s, j, k) {
            if 3 <= k <= 10 { }
          }
        }
        assert !HasParenMatch(title) by {
          forall j: nat, k: nat ensures !ParenMatch(title, j, k) {
            if 3 <= k <= 10 { }
          }
        }
      }
    }
  }

  // ---------------------------------------------------------------------
  // Japanese feed relabelling
  // ---------------------------------------------------------------------

  /** Items of a feed whose name ends in "_jp" get "_jp" appended to their source; nothing else changes. */
  function Relabel(feed: string, items: seq<Item>): (r: seq<Item>)
    ensures |r| == |items|
    ensures forall i :: 0 <= i < |items| ==>
      r[i] == (if EndsWith(feed, "_jp") then items[i].(source := items[i].source + "_jp") else items[i])
  {
    if items == [] then []
    else [if EndsWith(feed, "_jp") then items[0].(source := items[0].source + "_jp") else items[0]] + Relabel(feed, items[1..])
  }

  // ---------------------------------------------------------------------
  // Fetching every feed
  // ---------------------------------------------------------------------

  /**
   * One feed's answer: its name, and None when the request failed or the
   * answer was not a JSON object (the feed is skipped), else the items its
   * parser builds from the payload.
   */
  type FeedAnswer = (string, Option<seq<Item>>)

  /** `fetch` with parsers that build their items: every answered feed's items, relabelled, in feed order. */
  function Collect(feeds: seq<FeedAnswer>): seq<Item>
  {
    if feeds == [] then []
    else (if feeds[0].1.Some? then Relabel(feeds[0].0, feeds[0].1.value) else []) + Collect(feeds[1..])
  }

  /**
   * `fetch` as written: the parsers pass `extra_metadata=` to a record whose
   * field is `metadata`, so the first answered feed with any item raises
   * (None) outside the per-feed handler; otherwise nothing was parsed.
   */
  function CollectAsWritten(feeds: seq<FeedAnswer>): Option<seq<Item>>
  {
    if feeds == [] then Some([])
    else if feeds[0].1.Some? && feeds[0].1.value != [] then None
    else CollectAsWritten(feeds[1..])
  }

  /**
   * Every item of an answered feed is collected, relabelled, and every
   * collected item comes from an answered feed.
   */
  lemma {:induction false} CollectSpec(feeds: seq<FeedAnswer>)
    ensures forall i, j :: 0 <= i < |feeds| && feeds[i].1.Some? && 0 <= j < |feeds[i].1.value| ==>
      Relabel(feeds[i].0, feeds[i].1.value)[j] in Collect(feeds)
    ensures forall it :: it in Collect(feeds) ==>
      exists i :: 0 <= i < |feeds| && feeds[i].1.Some? && it in Relabel(feeds[i].0, feeds[i].1.value)
  {
    if feeds != [] {
      CollectSpec(feeds[1..]);
      var head := if feeds[0].1.Some? then Relabel(feeds[0].0, feeds[0].1.value) else [];
      assert Collect(feeds) == head + Collect(feeds[1..]);
      forall i, j | 0 <= i < |feeds| && feeds[i].1.Some? && 0 <= j < |feeds[i].1.value|
        ensures Relabel(feeds[i].0, feeds[i].1.value)[j] in Collect(feeds)
      {
        if i == 0 {
          assert head[j] in head;
        } else {
          assert feeds[1..][i - 1] == feeds[i];
        }
      }
      forall it | it in Collect(feeds)
        ensures exists i :: 0 <= i < |feeds| && feeds[i].1.Some? && it in Relabel(feeds[i].0, feeds[i].1.value)
      {
        if it !in head {
          var i :| 0 <= i < |feeds[1..]| && feeds[1..][i].1.Some? && it in Relabel(feeds[1..][i].0, feeds[1..][i].1.value);
          assert feeds[i + 1] == feeds[1..][i];
        }
      }
    }
  }

  /**
   * As written the fetch agrees with the corrected one only when no feed
   * answered with an item; whenever any did it raises, so a sync as written
   * never finds a new announcement.
   */
  lemma {:induction false} CollectAsWrittenFindsNothing(feeds: seq<FeedAnswer>)
    ensures CollectAsWritten(feeds) == (if Collect(feeds) == [] then Some([]) else None)
  {
    if feeds != [] {
      CollectAsWrittenFindsNothing(feeds[1..]);
    }
  }

  /** The feed loop of `fetch` with working parsers. */
  method Fetch(feeds: seq<FeedAnswer>) returns (items: seq<Item>)
    ensures items == Collect(feeds)
  {
    items := [];
    var i := 0;
    while i < |feeds|
      invariant 0 <= i <= |feeds|
      invariant items + Collect(feeds[i..]) == Collect(feeds)
    {
      assert feeds[i..][1..] == feeds[i + 1..];
      if feeds[i].1.Some? {
        items := items + Relabel(feeds[i].0, feeds[i].1.value);
      }
      i := i + 1;
    }
    assert feeds[i..] == [];
  }

  // ---------------------------------------------------------------------
  // Sync
  // ---------------------------------------------------------------------

  function SourceIds(rows: seq<Announcement>): set<string>
  {
    set a | a in rows :: a.sourceId
  }

  /** A new record for a fetched item, with id `id`. */
  function Record(item: Item, id: string, approvalRequired: bool): Announcement
  {
    Announcement(id, item.sourceId, item.source, item.title, item.content, item.symbol, item.listingTime,
                 item.timezoneLabel, if approvalRequired then PendingReview else Approved, item.url, item.metadata)
  }

  /**
   * The records a corrected sync adds: items with an empty source id, or
   * one already stored or added earlier in the same batch, are skipped;
   * the n-th new record gets id `newId(n)`. As written the batch is
   * checked against the stored rows only (`NewRecordsAsWritten`).
   */
  function NewRecords(items: seq<Item>, known: set<string>, approvalRequired: bool, newId: nat -> string, n: nat): seq<Announcement>
  {
    if items == [] then []
    else if items[0].sourceId == "" || items[0].sourceId in known then NewRecords(items[1..], known, approvalRequired, newId, n)
    else [Record(items[0], newId(n), approvalRequired)] + NewRecords(items[1..], known + {items[0].sourceId}, approvalRequired, newId, n + 1)
  }

  /**
   * New records have non-empty source ids that were not known, distinct
   * from one another, with status PENDING_REVIEW when approval is required
   * and APPROVED otherwise.
   */
  lemma {:induction false} NewRecordsFresh(items: seq<Item>, known: set<string>, approvalRequired: bool, newId: nat -> string, n: nat)
    ensures var recs := NewRecords(items, known, approvalRequired, newId, n);
      && (forall a :: a in recs ==> a.sourceId != "" && a.sourceId !in known)
      && (forall a :: a in recs ==> a.status == (if approvalRequired then PendingReview else Approved))
      && (forall i, j :: 0 <= i < j < |recs| ==> recs[i].sourceId != recs[j].sourceId)
  {
    if items != [] {
      var it0 := items[0];
      if it0.sourceId == "" || it0.sourceId in known {
        NewRecordsFresh(items[1..], known, approvalRequired, newId, n);
        assert NewRecords(items, known, approvalRequired, newId, n) == NewRecords(items[1..], known, approvalRequired, newId, n);
      } else {
        var known' := known + {it0.sourceId};
        NewRecordsFresh(items[1..], known', approvalRequired, newId, n + 1);
        var rest := NewRecords(items[1..], known', approvalRequired, newId, n + 1);
        var recs := [Record(it0, newId(n), approvalRequired)] + rest;
        assert NewRecords(items, known, approvalRequired, newId, n) == recs;
        forall i, j | 0 <= i < j < |recs| ensures recs[i].sourceId != recs[j].sourceId {
          if i == 0 {
            assert recs[j] in rest;
          } else {
            assert recs[i] == rest[i - 1] && recs[j] == rest[j - 1];
          }
        }
      }
    }
  }

  /** Every new record copies one of the fetched items. */
  lemma {:induction false} NewRecordsFromItems(items: seq<Item>, known: set<string>, approvalRequired: bool, newId: nat -> string, n: nat)
    ensures forall a :: a in NewRecords(items, known, approvalRequired, newId, n) ==>
      exists it :: it in items && a == Record(it, a.id, approvalRequired)
  {
    if items != [] {
      var it0 := items[0];
      if it0.sourceId == "" || it0.sourceId in known {
        NewRecordsFromItems(items[1..], known, approvalRequired, newId, n);
        assert NewRecords(items, known, approvalRequired, newId, n) == NewRecords(items[1..], known, approvalRequired, newId, n);
        forall a | a in NewRecords(items, known, approvalRequired, newId, n)
          ensures exists it :: it in items && a == Record(it, a.id, approvalRequired)
        {
          var it :| it in items[1..] && a == Record(it, a.id, approvalRequired);
          assert it in items;
        }
      } else {
        var known' := known + {it0.sourceId};
        NewRecordsFromItems(items[1..], known', approvalRequired, newId, n + 1);
        var rest := NewRecords(items[1..], known', approvalRequired, newId, n + 1);
        assert NewRecords(items, known, approvalRequired, newId, n) == [Record(it0, newId(n), approvalRequired)] + rest;
        forall a | a in NewRecords(items, known, approvalRequired, newId, n)
          ensures exists it :: it in items && a == Record(it, a.id, approvalRequired)
        {
          if a in rest {
            var it :| it in items[1..] && a == Record(it, a.id, approvalRequired);
            assert it in items;
          } else {
            assert a == Record(it0, a.id, approvalRequired);
            assert it0 in items;
          }
        }
      }
    }
  }

  /** Every fetched item with a non-empty, unknown source id is recorded. */
  lemma {:induction false} NewRecordsComplete(items: seq<Item>, known: set<string>, approvalRequired: bool, newId: nat -> string, n: nat)
    ensures forall it :: it in items && it.sourceId != "" && it.sourceId !in known ==>
      exists a :: a in NewRecords(items, known, approvalRequired, newId, n) && a.sourceId == it.sourceId
  {
    if items != [] {
      var it0 := items[0];
      var recs := NewRecords(items, known, approvalRequired, newId, n);
      if it0.sourceId == "" || it0.sourceId in known {
        NewRecordsComplete(items[1..], known, approvalRequired, newId, n);
        forall it | it in items && it.sourceId != "" && it.sourceId !in known
          ensures exists a :: a in recs && a.sourceId == it.sourceId
        {
          assert it in items[1..];
        }
      } else {
        var known' := known + {it0.sourceId};
        NewRecordsComplete(items[1..], known', approvalRequired, newId, n + 1);
        var rest := NewRecords(items[1..], known', approvalRequired, newId, n + 1);
        assert recs == [Record(it0, newId(n), approvalRequired)] + rest;
        forall it | it in items && it.sourceId != "" && it.sourceId !in known
          ensures exists a :: a in recs && a.sourceId == it.sourceId
        {
          if it.sourceId != it0.sourceId {
            assert it in items[1..];
            var a :| a in rest && a.sourceId == it.sourceId;
            assert a in recs;
          } else {
            assert recs[0] in recs;
          }
        }
      }
    }
  }

  /** No two rows share a source id: the unique `source_id` column. */
  predicate DistinctSourceIds(rows: seq<Announcement>)
  {
    forall i, j :: 0 <= i < j < |rows| ==> rows[i].sourceId != rows[j].sourceId
  }

  /**
   * The records `sync_from_sources` builds as written: the duplicate lookup
   * runs against the stored rows only, because the session does not flush
   * pending rows before a query, so an item whose source id was added
   * earlier in the same batch is added again.
   */
  function NewRecordsAsWritten(items: seq<Item>, stored: set<string>, approvalRequired: bool, newId: nat -> string, n: nat): seq<Announcement>
  {
    if items == [] then []
    else if items[0].sourceId == "" || items[0].sourceId in stored then NewRecordsAsWritten(items[1..], stored, approvalRequired, newId, n)
    else [Record(items[0], newId(n), approvalRequired)] + NewRecordsAsWritten(items[1..], stored, approvalRequired, newId, n + 1)
  }

  /** Every record built as written copies a fetched item whose source id is non-empty and not stored. */
  lemma {:induction false} NewRecordsAsWrittenFromItems(items: seq<Item>, stored: set<string>, approvalRequired: bool, newId: nat -> string, n: nat)
    ensures forall a :: a in NewRecordsAsWritten(items, stored, approvalRequired, newId, n) ==>
      a.sourceId != "" && a.sourceId !in stored && exists it :: it in items && a == Record(it, a.id, approvalRequired)
  {
    if items != [] {
      var it0 := items[0];
      var skip := it0.sourceId == "" || it0.sourceId in stored;
      var m := if skip then n else n + 1;
      NewRecordsAsWrittenFromItems(items[1..], stored, approvalRequired, newId, m);
      var rest := NewRecordsAsWritten(items[1..], stored, approvalRequired, newId, m);
      var recs := NewRecordsAsWritten(items, stored, approvalRequired, newId, n);
      assert recs == (if skip then [] else [Record(it0, newId(n), approvalRequired)]) + rest;
      forall a | a in recs
        ensures a.sourceId != "" && a.sourceId !in stored && exists it :: it in items && a == Record(it, a.id, approvalRequired)
      {
        if a in rest {
          var it :| it in items[1..] && a == Record(it, a.id, approvalRequired);
          assert it in items;
        } else {
          assert it0 in items;
        }
      }
    }
  }

  /** Every fetched item with a non-empty, unstored source id gets a record as written, however often it occurs. */
  lemma {:induction false} NewRecordsAsWrittenComplete(items: seq<Item>, stored: set<string>, approvalRequired: bool, newId: nat -> string, n: nat)
    ensures forall it :: it in items && it.sourceId != "" && it.sourceId !in stored ==>
      exists a :: a in NewRecordsAsWritten(items, stored, approvalRequired, newId, n) && a.sourceId == it.sourceId
  {
    if items != [] {
      var it0 := items[0];
      var skip := it0.sourceId == "" || it0.sourceId in stored;
      var m := if skip then n else n + 1;
      NewRecordsAsWrittenComplete(items[1..], stored, approvalRequired, newId, m);
      var rest := NewRecordsAsWritten(items[1..], stored, approvalRequired, newId, m);
      var recs := NewRecordsAsWritten(items, stored, approvalRequired, newId, n);
      assert recs == (if skip then [] else [Record(it0, newId(n), approvalRequired)]) + rest;
      forall it | it in items && it.sourceId != "" && it.sourceId !in stored
        ensures exists a :: a in recs && a.sourceId == it.sourceId
      {
        if it == it0 {
          assert recs[0] in recs;
        } else {
          assert it in items[1..];
          var a :| a in rest && a.sourceId == it.sourceId;
          assert a in recs;
        }
      }
    }
  }

  /**
   * The records built as written are the corrected ones exactly when they
   * repeat no source id; a repeat is the only way the two differ.
   */
  lemma NewRecordsAsWrittenAgrees(items: seq<Item>, stored: set<string>, approvalRequired: bool, newId: nat -> string, n: nat)
    ensures NewRecordsAsWritten(items, stored, approvalRequired, newId, n) == NewRecords(items, stored, approvalRequired, newId, n)
      <==> DistinctSourceIds(NewRecordsAsWritten(items, stored, approvalRequired, newId, n))
  {
    if DistinctSourceIds(NewRecordsAsWritten(items, stored, approvalRequired, newId, n)) {
      AgreeWithoutRepeats(items, stored, {}, approvalRequired, newId, n);
      assert stored + {} == stored;
    } else {
      NewRecordsFresh(items, stored, approvalRequired, newId, n);
    }
  }

  /** The induction behind `NewRecordsAsWrittenAgrees`, with the ids added so far in `extra`. */
  lemma {:induction false} AgreeWithoutRepeats(items: seq<Item>, stored: set<string>, extra: set<string>, approvalRequired: bool, newId: nat -> string, n: nat)
    requires var recs := NewRecordsAsWritten(items, stored, approvalRequired, newId, n);
      DistinctSourceIds(recs) && forall a :: a in recs ==> a.sourceId !in extra
    ensures NewRecordsAsWritten(items, stored, approvalRequired, newId, n) == NewRecords(items, stored + extra, approvalRequired, newId, n)
  {
    if items != [] {
      var it0 := items[0];
      if it0.sourceId == "" || it0.sourceId in stored {
        AgreeWithoutRepeats(items[1..], stored, extra, approvalRequired, newId, n);
      } else {
        var rest := NewRecordsAsWritten(items[1..], stored, approvalRequired, newId, n + 1);
        var recs := [Record(it0, newId(n), approvalRequired)] + rest;
        assert NewRecordsAsWritten(items, stored, approvalRequired, newId, n) == recs;
        assert recs[0] in recs;
        assert DistinctSourceIds(rest) by {
          forall i, j | 0 <= i < j < |rest| ensures rest[i].sourceId != rest[j].sourceId {
            assert rest[i] == recs[i + 1] && rest[j] == recs[j + 1];
          }
        }
        forall a | a in rest ensures a.sourceId !in extra + {it0.sourceId} {
          var j :| 0 <= j < |rest| && rest[j] == a;
          assert recs[j + 1] == a;
        }
        AgreeWithoutRepeats(items[1..], stored, extra + {it0.sourceId}, approvalRequired, newId, n + 1);
        assert stored + (extra + {it0.sourceId}) == (stored + extra) + {it0.sourceId};
      }
    }
  }

  /**
   * An item fetched twice in one batch with a new source id (two feed
   * items without an id both get "None"; a `_jp` feed item repeats its
   * global one): as written both copies are added, so the batch repeats a
   * source id and its commit fails; corrected, one record is added.
   */
  lemma RepeatedItemAsWritten(it: Item, stored: set<string>, approvalRequired: bool, newId: nat -> string)
    requires it.sourceId != "" && it.sourceId !in stored
    ensures !DistinctSourceIds(NewRecordsAsWritten([it, it], stored, approvalRequired, newId, 0))
    ensures NewRecords([it, it], stored, approvalRequired, newId, 0) == [Record(it, newId(0), approvalRequired)]
  {
    assert [it, it][1..] == [it];
    assert [it][1..] == [];
    var r0 := Record(it, newId(0), approvalRequired);
    var r1 := Record(it, newId(1), approvalRequired);
    assert NewRecordsAsWritten([it], stored, approvalRequired, newId, 1) == [r1] + [];
    var recs := NewRecordsAsWritten([it, it], stored, approvalRequired, newId, 0);
    assert recs == [r0] + [r1];
    assert recs[0].sourceId == recs[1].sourceId;
    assert NewRecords([it], stored + {it.sourceId}, approvalRequired, newId, 1) == [];
  }

  /** Rows with distinct source ids stay so when records with distinct, unstored ids are appended. */
  lemma AppendDistinct(rows: seq<Announcement>, recs: seq<Announcement>)
    requires DistinctSourceIds(rows) && DistinctSourceIds(recs)
    requires forall a :: a in recs ==> a.sourceId !in SourceIds(rows)
    ensures DistinctSourceIds(rows + recs)
  {
    var all := rows + recs;
    forall i, j | 0 <= i < j < |all| ensures all[i].sourceId != all[j].sourceId {
      if i < |rows| && |rows| <= j {
        assert all[j] == recs[j - |rows|] && recs[j - |rows|] in recs;
        assert all[i] == rows[i] && rows[i] in rows;
      } else if |rows| <= i {
        assert all[i] == recs[i - |rows|] && all[j] == recs[j - |rows|];
      }
    }
  }

  class AnnouncementStore {
    var rows: seq<Announcement>

    constructor (initial: seq<Announcement>)
      ensures rows == initial
    {
      rows := initial;
    }

    /**
     * `sync_from_sources` as written: a failed fetch (None) changes nothing;
     * the records built against the stored rows are added and returned,
     * unless the commit fails, in which case it is rolled back and nothing is
     * stored or returned. The commit fails when the batch repeats a source id
     * (the unique column), or for any other reason the database gives
     * (`commitOk` false). Source ids stay distinct.
     */
    method Sync(fetched: Option<seq<Item>>, approvalRequired: bool, newId: nat -> string, commitOk: bool)
      returns (added: seq<Announcement>)
      modifies this
      ensures fetched.None? ==> added == [] && rows == old(rows)
      ensures fetched.Some? ==>
        var recs := NewRecordsAsWritten(fetched.value, SourceIds(old(rows)), approvalRequired, newId, 0);
        if recs != [] && !(commitOk && DistinctSourceIds(recs)) then added == [] && rows == old(rows)
        else added == recs && rows == old(rows) + recs
      ensures DistinctSourceIds(old(rows)) ==> DistinctSourceIds(rows)
    {
      if fetched.None? {
        return [];
      }
      var items := fetched.value;
      var stored := SourceIds(rows);
      var recs: seq<Announcement> := [];
      var i := 0;
      assert items[i..] == items;
      while i < |items|
        invariant 0 <= i <= |items|
        invariant NewRecordsAsWritten(items, stored, approvalRequired, newId, 0) ==
          recs + NewRecordsAsWritten(items[i..], stored, approvalRequired, newId, |recs|)
      {
        var item := items[i];
        assert items[i..][0] == item && items[i..][1..] == items[i + 1..];
        if item.sourceId != "" && item.sourceId !in stored {
          var r := Record(item, newId(|recs|), approvalRequired);
          assert recs + ([r] + NewRecordsAsWritten(items[i + 1..], stored, approvalRequired, newId, |recs| + 1)) ==
            (recs + [r]) + NewRecordsAsWritten(items[i + 1..], stored, approvalRequired, newId, |recs| + 1);
          recs := recs + [r];
        }
        i := i + 1;
      }
      assert items[i..] == [];
      assert recs + [] == recs;
      if recs != [] && !(commitOk && DistinctSourceIds(recs)) {
        return [];
      }
      NewRecordsAsWrittenFromItems(items, stored, approvalRequired, newId, 0);
      if DistinctSourceIds(rows) {
        AppendDistinct(rows, recs);
      }
      rows := rows + recs;
      added := recs;
    }
  }
}
