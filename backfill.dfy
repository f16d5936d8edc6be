/**
 * The historical backfill: for every language, for the "alpha" and then
 * the "futures" feed, fetch pages 1..max_pages until an empty page, and
 * store each item (with its source id and source suffixed by the language
 * when that is not "en") unless its suffixed source id is already stored.
 * An item older than the cutoff ends its page; when the last page fetched
 * for a feed ended that way, the remaining feeds of the language are skipped.
 */
module Backfill {
  import opened Common
  import opened Announcements

  /** The feeds, in the order they are paged. */
  const Feeds: seq<string> := ["alpha", "futures"]

  /**
   * The page fetcher (failures are empty pages), the cutoff in ms, the
   * approval setting, the id generator for new rows, and max_pages.
   */
  datatype Env = Env(fetch: (string, string, nat) -> seq<Item>, cutoff: int, approvalRequired: bool,
                     newId: nat -> string, maxPages: nat)

  function Languages(languages: Option<seq<string>>): seq<string>
  {
    if languages.None? then ["en"] else languages.value
  }

  function Suffixed(s: string, lang: string): string
  {
    if lang != "en" then s + "_" + lang else s
  }

  predicate IsOld(item: Item, cutoff: int)
  {
    item.listingTime.Some? && item.listingTime.value < cutoff
  }

  /** The stored row for `item` fetched in language `lang`. */
  function BackfillRecord(item: Item, lang: string, id: string, approvalRequired: bool): Announcement
  {
    Announcement(id, Suffixed(item.sourceId, lang), Suffixed(item.source, lang), item.title, item.content,
                 item.symbol, item.listingTime, item.timezoneLabel,
                 if approvalRequired then PendingReview else Approved, item.url,
                 item.metadata["language" := lang])
  }

  /**
   * A backfilled row: source id and source carry the `_lang` suffix
   * exactly for languages other than "en"; the metadata is the item's with
   * "language" set and every other key kept; the status follows the
   * approval setting.
   */
  lemma BackfillRecordSpec(item: Item, lang: string, id: string, approvalRequired: bool)
    ensures var a := BackfillRecord(item, lang, id, approvalRequired);
      && (lang == "en" ==> a.sourceId == item.sourceId && a.source == item.source)
      && (lang != "en" ==> a.sourceId == item.sourceId + "_" + lang && a.source == item.source + "_" + lang)
      && StartsWith(a.sourceId, item.sourceId)
      && a.metadata["language"] == lang
      && (forall k :: k in item.metadata && k != "language" ==> k in a.metadata && a.metadata[k] == item.metadata[k])
      && a.metadata.Keys == item.metadata.Keys + {"language"}
      && a.status == (if approvalRequired then PendingReview else Approved)
  {
    var a := BackfillRecord(item, lang, id, approvalRequired);
    assert a.sourceId[..|item.sourceId|] == item.sourceId;
  }

  /**
   * One page, corrected: the rows afterwards, and whether an old item ended
   * it. Items are taken in order; one whose suffixed id is already stored,
   * including earlier in the same page, is skipped. As written the page is
   * `AddPageAsWritten`.
   */
  function AddPage(rows: seq<Announcement>, items: seq<Item>, lang: string, env: Env): (seq<Announcement>, bool)
    decreases |items|
  {
    if items == [] then (rows, false)
    else if IsOld(items[0], env.cutoff) then (rows, true)
    else if Suffixed(items[0].sourceId, lang) in SourceIds(rows) then AddPage(rows, items[1..], lang, env)
    else AddPage(rows + [BackfillRecord(items[0], lang, env.newId(|rows|), env.approvalRequired)], items[1..], lang, env)
  }

  /**
   * Pages `page..max_pages` of one feed, stopping at an empty page.
   * `stop` is the backfill's local flag: None while unassigned, then the
   * value the last non-empty page left.
   */
  function Pages(rows: seq<Announcement>, stop: Option<bool>, lang: string, feed: string, page: nat, env: Env)
    : (seq<Announcement>, Option<bool>)
    decreases env.maxPages + 1 - page
  {
    if page > env.maxPages then (rows, stop)
    else
      var items := env.fetch(lang, feed, page);
      if items == [] then (rows, stop)
      else
        var (after, st) := AddPage(rows, items, lang, env);
        Pages(after, Some(st), lang, feed, page + 1, env)
  }

  /**
   * The feeds of one language. With `reset` the flag is set to false
   * before each feed's pages; without it (the code as written) it keeps
   * whatever the previous feed, or language, left, and reading it while
   * unassigned raises.
   */
  function FeedsRun(rows: seq<Announcement>, stop: Option<bool>, lang: string, feeds: seq<string>, reset: bool, env: Env)
    : Result<(seq<Announcement>, Option<bool>)>
    decreases |feeds|
  {
    if feeds == [] then Ok((rows, stop))
    else
      var (after, st) := Pages(rows, if reset then Some(false) else stop, lang, feeds[0], 1, env);
      if st.None? then Err("local variable 'stop' referenced before assignment")
      else if st.value then Ok((after, st))
      else FeedsRun(after, st, lang, feeds[1..], reset, env)
  }

  function LanguagesRun(rows: seq<Announcement>, stop: Option<bool>, langs: seq<string>, reset: bool, env: Env)
    : Result<(seq<Announcement>, Option<bool>)>
    decreases |langs|
  {
    if langs == [] then Ok((rows, stop))
    else
      var r := FeedsRun(rows, stop, langs[0], Feeds, reset, env);
      if r.Err? then r else LanguagesRun(r.value.0, r.value.1, langs[1..], reset, env)
  }

  /**
   * `backfill` with the flag as written: the stored rows afterwards, or the
   * error. Its pages are the corrected `AddPage`; a page that repeats an id
   * raises as written (`AddPageAsWritten`), and the parsers raise before
   * any page is stored (`BackfillParsedAsWritten`).
   */
  function BackfillAsWritten(rows: seq<Announcement>, languages: Option<seq<string>>, env: Env): Result<seq<Announcement>>
  {
    var r := LanguagesRun(rows, None, Languages(languages), false, env);
    if r.Err? then Err(r.error) else Ok(r.value.0)
  }

  /** `backfill` with `stop` set to false before each feed's pages. */
  function BackfillRows(rows: seq<Announcement>, languages: Option<seq<string>>, env: Env): seq<Announcement>
  {
    var r := LanguagesRun(rows, None, Languages(languages), true, env);
    if r.Err? then rows else r.value.0
  }

  /** A feed whose first page is empty leaves the rows and the flag as they were. */
  lemma EmptyFirstPage(rows: seq<Announcement>, stop: Option<bool>, lang: string, feed: string, env: Env)
    requires env.maxPages >= 1 && env.fetch(lang, feed, 1) == []
    ensures Pages(rows, stop, lang, feed, 1, env) == (rows, stop)
  {
  }

  /**
   * When every page is empty, the code as written raises on its first
   * feed, while with the flag reset the backfill completes and stores nothing.
   */
  lemma UnassignedStopRaises(rows: seq<Announcement>, env: Env)
    requires env.maxPages >= 1 && forall l, f, p :: env.fetch(l, f, p) == []
    ensures BackfillAsWritten(rows, None, env).Err?
    ensures LanguagesRun(rows, None, ["en"], true, env) == Ok((rows, Some(false)))
    ensures BackfillRows(rows, None, env) == rows
  {
    EmptyFirstPage(rows, None, "en", "alpha", env);
    EmptyFirstPage(rows, Some(false), "en", "alpha", env);
    EmptyFirstPage(rows, Some(false), "en", "futures", env);
    assert Feeds[1..][1..] == [];
    assert FeedsRun(rows, Some(false), "en", Feeds[1..], true, env) == Ok((rows, Some(false)));
    assert FeedsRun(rows, None, "en", Feeds, true, env) == Ok((rows, Some(false)));
    assert ["en"][1..] == [];
  }

  /** With the flag reset before each feed, it is always assigned when read, so the run never raises. */
  lemma {:induction false} ResetNeverRaises(rows: seq<Announcement>, stop: Option<bool>, langs: seq<string>, env: Env)
    ensures LanguagesRun(rows, stop, langs, true, env).Ok?
    decreases |langs|
  {
    if langs != [] {
      FeedsNeverRaise(rows, stop, langs[0], Feeds, env);
      var r := FeedsRun(rows, stop, langs[0], Feeds, true, env);
      ResetNeverRaises(r.value.0, r.value.1, langs[1..], env);
    }
  }

  lemma {:induction false} FeedsNeverRaise(rows: seq<Announcement>, stop: Option<bool>, lang: string, feeds: seq<string>, env: Env)
    ensures FeedsRun(rows, stop, lang, feeds, true, env).Ok?
    decreases |feeds|
  {
    if feeds != [] {
      PagesKeepAssigned(rows, Some(false), lang, feeds[0], 1, env);
      var (after, st) := Pages(rows, Some(false), lang, feeds[0], 1, env);
      if !st.value {
        FeedsNeverRaise(after, st, lang, feeds[1..], env);
      }
    }
  }

  lemma {:induction false} PagesKeepAssigned(rows: seq<Announcement>, stop: Option<bool>, lang: string, feed: string, page: nat, env: Env)
    requires stop.Some?
    ensures Pages(rows, stop, lang, feed, page, env).1.Some?
    decreases env.maxPages + 1 - page
  {
    if page <= env.maxPages && env.fetch(lang, feed, page) != [] {
      var (after, st) := AddPage(rows, env.fetch(lang, feed, page), lang, env);
      PagesKeepAssigned(after, Some(st), lang, feed, page + 1, env);
    }
  }

  // ---------------------------------------------------------------------
  // What a run stores
  // ---------------------------------------------------------------------

  /** `after` keeps `rows` as its prefix, and keeps source ids distinct if they were. */
  predicate Extends(rows: seq<Announcement>, after: seq<Announcement>)
  {
    |rows| <= |after| && after[..|rows|] == rows &&
    (DistinctSourceIds(rows) ==> DistinctSourceIds(after))
  }

  lemma ExtendsTransitive(a: seq<Announcement>, b: seq<Announcement>, c: seq<Announcement>)
    requires Extends(a, b) && Extends(b, c)
    ensures Extends(a, c)
  {
    assert c[..|a|] == c[..|b|][..|a|];
  }

  lemma AppendFresh(rows: seq<Announcement>, a: Announcement)
    requires a.sourceId !in SourceIds(rows)
    ensures Extends(rows, rows + [a])
  {
    assert (rows + [a])[..|rows|] == rows;
    if DistinctSourceIds(rows) {
      forall i, j | 0 <= i < j < |rows + [a]| ensures (rows + [a])[i].sourceId != (rows + [a])[j].sourceId {
        if j == |rows| {
          assert rows[i] in rows;
        }
      }
    }
  }

  /** A page only appends, and no appended row repeats a source id stored before it. */
  lemma {:induction false} AddPageExtends(rows: seq<Announcement>, items: seq<Item>, lang: string, env: Env)
    ensures var after := AddPage(rows, items, lang, env).0;
      && Extends(rows, after)
      && (forall k :: |rows| <= k < |after| ==> after[k].sourceId !in SourceIds(rows))
    decreases |items|
  {
    if items != [] && !IsOld(items[0], env.cutoff) {
      var it := items[0];
      if Suffixed(it.sourceId, lang) in SourceIds(rows) {
        AddPageExtends(rows, items[1..], lang, env);
      } else {
        var rec := BackfillRecord(it, lang, env.newId(|rows|), env.approvalRequired);
        var mid := rows + [rec];
        AppendFresh(rows, rec);
        AddPageExtends(mid, items[1..], lang, env);
        var after := AddPage(mid, items[1..], lang, env).0;
        ExtendsTransitive(rows, mid, after);
        assert SourceIds(rows) <= SourceIds(mid);
        forall k | |rows| <= k < |after| ensures after[k].sourceId !in SourceIds(rows) {
          if k == |rows| {
            assert after[k] == mid[k] by { assert after[..|mid|] == mid; }
          }
        }
      }
    }
  }

  /** Every row a page appends is the record of one of its items that is not too old, in that language. */
  lemma {:induction false} AddPageOrigins(rows: seq<Announcement>, items: seq<Item>, lang: string, env: Env)
    ensures var after := AddPage(rows, items, lang, env).0;
      forall k :: |rows| <= k < |after| ==>
        exists it :: (it in items && !IsOld(it, env.cutoff) &&
          after[k] == BackfillRecord(it, lang, env.newId(k), env.approvalRequired))
    decreases |items|
  {
    if items != [] && !IsOld(items[0], env.cutoff) {
      var it := items[0];
      var after := AddPage(rows, items, lang, env).0;
      var mid := if Suffixed(it.sourceId, lang) in SourceIds(rows) then rows
                 else rows + [BackfillRecord(it, lang, env.newId(|rows|), env.approvalRequired)];
      assert after == AddPage(mid, items[1..], lang, env).0;
      AddPageOrigins(mid, items[1..], lang, env);
      AddPageExtends(mid, items[1..], lang, env);
      forall k | |rows| <= k < |after|
        ensures exists it :: (it in items && !IsOld(it, env.cutoff) &&
          after[k] == BackfillRecord(it, lang, env.newId(k), env.approvalRequired))
      {
        if k < |mid| {
          assert after[k] == mid[k] by { assert after[..|mid|] == mid; }
          assert items[0] in items;
        } else {
          var it' :| it' in items[1..] && !IsOld(it', env.cutoff) &&
            after[k] == BackfillRecord(it', lang, env.newId(k), env.approvalRequired);
          assert it' in items;
        }
      }
    }
  }

  /**
   * The new records of one page as written, numbered from `base`, and
   * whether an old item ended the page. `_exists` queries the rows
   * committed before the page, because the session does not flush pending
   * rows before a query, so an item whose suffixed id was added earlier in
   * the same page is added again.
   */
  function PageRecordsAsWritten(stored: set<string>, items: seq<Item>, lang: string, env: Env, base: nat): (seq<Announcement>, bool)
    decreases |items|
  {
    if items == [] then ([], false)
    else if IsOld(items[0], env.cutoff) then ([], true)
    else if Suffixed(items[0].sourceId, lang) in stored then PageRecordsAsWritten(stored, items[1..], lang, env, base)
    else
      var (rest, st) := PageRecordsAsWritten(stored, items[1..], lang, env, base + 1);
      ([BackfillRecord(items[0], lang, env.newId(base), env.approvalRequired)] + rest, st)
  }

  /**
   * One page as written: when its records repeat a source id, the page's
   * commit breaks the unique column and raises out of the backfill;
   * otherwise the rows afterwards and whether an old item ended the page.
   */
  function AddPageAsWritten(rows: seq<Announcement>, items: seq<Item>, lang: string, env: Env): Result<(seq<Announcement>, bool)>
  {
    var (recs, st) := PageRecordsAsWritten(SourceIds(rows), items, lang, env, |rows|);
    if DistinctSourceIds(recs) then Ok((rows + recs, st))
    else Err("IntegrityError: duplicate announcements.source_id")
  }

  /** A page whose commit succeeds as written stores exactly what the corrected page stores. */
  lemma AddPageAsWrittenAgrees(rows: seq<Announcement>, items: seq<Item>, lang: string, env: Env)
    ensures var r := AddPageAsWritten(rows, items, lang, env);
      r.Ok? ==> r.value == AddPage(rows, items, lang, env)
  {
    if DistinctSourceIds(PageRecordsAsWritten(SourceIds(rows), items, lang, env, |rows|).0) {
      PageAgreesWithoutRepeats(rows, SourceIds(rows), {}, items, lang, env);
      assert SourceIds(rows) + {} == SourceIds(rows);
    }
  }

  lemma SourceIdsAppend(rows: seq<Announcement>, a: Announcement)
    ensures SourceIds(rows + [a]) == SourceIds(rows) + {a.sourceId}
  {
    forall x | x in rows + [a] ensures x in rows || x == a {
    }
  }

  /** The induction behind `AddPageAsWrittenAgrees`, with the ids added so far in `extra`. */
  lemma {:induction false} PageAgreesWithoutRepeats(rows: seq<Announcement>, stored: set<string>, extra: set<string>,
                                                   items: seq<Item>, lang: string, env: Env)
    requires SourceIds(rows) == stored + extra
    requires var recs := PageRecordsAsWritten(stored, items, lang, env, |rows|).0;
      DistinctSourceIds(recs) && forall a :: a in recs ==> a.sourceId !in extra
    ensures var (recs, st) := PageRecordsAsWritten(stored, items, lang, env, |rows|);
      AddPage(rows, items, lang, env) == (rows + recs, st)
    decreases |items|
  {
    if items != [] && !IsOld(items[0], env.cutoff) {
      var it := items[0];
      var id := Suffixed(it.sourceId, lang);
      if id in stored {
        PageAgreesWithoutRepeats(rows, stored, extra, items[1..], lang, env);
      } else {
        var rec := BackfillRecord(it, lang, env.newId(|rows|), env.approvalRequired);
        var (rest, st) := PageRecordsAsWritten(stored, items[1..], lang, env, |rows| + 1);
        var recs := [rec] + rest;
        assert PageRecordsAsWritten(stored, items, lang, env, |rows|) == (recs, st);
        assert recs[0] in recs;
        assert id !in SourceIds(rows);
        var mid := rows + [rec];
        SourceIdsAppend(rows, rec);
        assert SourceIds(mid) == stored + (extra + {id});
        assert DistinctSourceIds(rest) by {
          forall i, j | 0 <= i < j < |rest| ensures rest[i].sourceId != rest[j].sourceId {
            assert rest[i] == recs[i + 1] && rest[j] == recs[j + 1];
          }
        }
        forall a | a in rest ensures a.sourceId !in extra + {id} {
          var j :| 0 <= j < |rest| && rest[j] == a;
          assert recs[j + 1] == a;
        }
        PageAgreesWithoutRepeats(mid, stored, extra + {id}, items[1..], lang, env);
        assert mid + rest == rows + recs;
      }
    } else {
      assert rows + [] == rows;
    }
  }

  /**
   * A page holding a recent item with a new suffixed id twice: as written
   * both copies are added and the page's commit raises; corrected, the
   * item is stored once.
   */
  lemma RepeatedItemInPage(rows: seq<Announcement>, it: Item, lang: string, env: Env)
    requires !IsOld(it, env.cutoff) && Suffixed(it.sourceId, lang) !in SourceIds(rows)
    ensures AddPageAsWritten(rows, [it, it], lang, env).Err?
    ensures AddPage(rows, [it, it], lang, env) == (rows + [BackfillRecord(it, lang, env.newId(|rows|), env.approvalRequired)], false)
  {
    RepeatedItemRecordsAsWritten(SourceIds(rows), it, lang, env, |rows|);
    RepeatedItemStoredOnce(rows, it, lang, env);
  }

  lemma RepeatedItemRecordsAsWritten(stored: set<string>, it: Item, lang: string, env: Env, base: nat)
    requires !IsOld(it, env.cutoff) && Suffixed(it.sourceId, lang) !in stored
    ensures !DistinctSourceIds(PageRecordsAsWritten(stored, [it, it], lang, env, base).0)
  {
    assert [it, it][1..] == [it];
    assert [it][1..] == [];
    var r1 := BackfillRecord(it, lang, env.newId(base + 1), env.approvalRequired);
    assert PageRecordsAsWritten(stored, [it], lang, env, base + 1).0 == [r1];
    var recs := PageRecordsAsWritten(stored, [it, it], lang, env, base).0;
    assert recs == [BackfillRecord(it, lang, env.newId(base), env.approvalRequired), r1];
    assert recs[0].sourceId == recs[1].sourceId;
  }

  lemma RepeatedItemStoredOnce(rows: seq<Announcement>, it: Item, lang: string, env: Env)
    requires !IsOld(it, env.cutoff) && Suffixed(it.sourceId, lang) !in SourceIds(rows)
    ensures AddPage(rows, [it, it], lang, env) == (rows + [BackfillRecord(it, lang, env.newId(|rows|), env.approvalRequired)], false)
  {
    assert [it, it][1..] == [it];
    assert [it][1..] == [];
    var r0 := BackfillRecord(it, lang, env.newId(|rows|), env.approvalRequired);
    var mid := rows + [r0];
    SourceIdsAppend(rows, r0);
    assert AddPage(rows, [it, it], lang, env) == AddPage(mid, [it], lang, env);
    assert AddPage(mid, [it], lang, env) == AddPage(mid, [], lang, env);
  }

  lemma {:induction false} PagesExtend(rows: seq<Announcement>, stop: Option<bool>, lang: string, feed: string, page: nat, env: Env)
    ensures Extends(rows, Pages(rows, stop, lang, feed, page, env).0)
    decreases env.maxPages + 1 - page
  {
    if page <= env.maxPages && env.fetch(lang, feed, page) != [] {
      var (after, st) := AddPage(rows, env.fetch(lang, feed, page), lang, env);
      AddPageExtends(rows, env.fetch(lang, feed, page), lang, env);
      PagesExtend(after, Some(st), lang, feed, page + 1, env);
      ExtendsTransitive(rows, after, Pages(after, Some(st), lang, feed, page + 1, env).0);
    }
  }

  lemma {:induction false} FeedsExtend(rows: seq<Announcement>, stop: Option<bool>, lang: string, feeds: seq<string>, reset: bool, env: Env)
    ensures var r := FeedsRun(rows, stop, lang, feeds, reset, env);
      r.Ok? ==> Extends(rows, r.value.0)
    decreases |feeds|
  {
    if feeds != [] {
      var s0 := if reset then Some(false) else stop;
      var (after, st) := Pages(rows, s0, lang, feeds[0], 1, env);
      PagesExtend(rows, s0, lang, feeds[0], 1, env);
      if st.Some? && !st.value {
        FeedsExtend(after, st, lang, feeds[1..], reset, env);
        var r := FeedsRun(after, st, lang, feeds[1..], reset, env);
        if r.Ok? {
          ExtendsTransitive(rows, after, r.value.0);
        }
      }
    }
  }

  /**
   * A whole run, as written or corrected, only appends rows and never
   * stores a source id twice when none was stored twice before.
   */
  lemma {:induction false} LanguagesExtend(rows: seq<Announcement>, stop: Option<bool>, langs: seq<string>, reset: bool, env: Env)
    ensures var r := LanguagesRun(rows, stop, langs, reset, env);
      r.Ok? ==> Extends(rows, r.value.0)
    decreases |langs|
  {
    if langs != [] {
      var r := FeedsRun(rows, stop, langs[0], Feeds, reset, env);
      FeedsExtend(rows, stop, langs[0], Feeds, reset, env);
      if r.Ok? {
        LanguagesExtend(r.value.0, r.value.1, langs[1..], reset, env);
        var r2 := LanguagesRun(r.value.0, r.value.1, langs[1..], reset, env);
        if r2.Ok? {
          ExtendsTransitive(rows, r.value.0, r2.value.0);
        }
      }
    }
  }

  /**
   * `backfill` as written, parsers included. The first page fetched is
   * page 1 of "alpha" in the first language; its parser passes
   * `extra_metadata=` to a record whose field is `metadata`, so it raises
   * when that page has any item, and otherwise the run goes on as
   * `BackfillAsWritten`.
   */
  function BackfillParsedAsWritten(rows: seq<Announcement>, languages: Option<seq<string>>, env: Env): Result<seq<Announcement>>
  {
    var langs := Languages(languages);
    if langs != [] && env.maxPages >= 1 && env.fetch(langs[0], Feeds[0], 1) != [] then
      Err("NormalizedAnnouncement got an unexpected keyword argument 'extra_metadata'")
    else BackfillAsWritten(rows, languages, env)
  }

  /**
   * As written the backfill stores nothing: with at least one language it
   * always raises on its first page, whether that page is empty (the
   * unassigned flag) or not (the parser); with none it returns the rows.
   */
  lemma BackfillParsedAsWrittenStoresNothing(rows: seq<Announcement>, languages: Option<seq<string>>, env: Env)
    ensures var r := BackfillParsedAsWritten(rows, languages, env);
      && (r.Err? <==> Languages(languages) != [])
      && (r.Ok? ==> r.value == rows)
  {
    var langs := Languages(languages);
    if langs != [] && !(env.maxPages >= 1 && env.fetch(langs[0], Feeds[0], 1) != []) {
      assert Pages(rows, None, langs[0], Feeds[0], 1, env) == (rows, None);
    }
  }

  /**
   * The corrected backfill stores a new, recent first item of the first
   * page it fetches, as the first row it adds.
   */
  lemma FirstItemStored(rows: seq<Announcement>, languages: Option<seq<string>>, env: Env)
    requires Languages(languages) != [] && env.maxPages >= 1
    requires var items := env.fetch(Languages(languages)[0], Feeds[0], 1);
      items != [] && !IsOld(items[0], env.cutoff) &&
      Suffixed(items[0].sourceId, Languages(languages)[0]) !in SourceIds(rows)
    ensures var after := BackfillRows(rows, languages, env);
      var lang := Languages(languages)[0];
      |rows| < |after| &&
      after[|rows|] == BackfillRecord(env.fetch(lang, Feeds[0], 1)[0], lang, env.newId(|rows|), env.approvalRequired)
  {
    var langs := Languages(languages);
    var lang := langs[0];
    var mid := rows + [BackfillRecord(env.fetch(lang, Feeds[0], 1)[0], lang, env.newId(|rows|), env.approvalRequired)];
    FirstFeedsStore(rows, lang, env);
    var r := FeedsRun(rows, None, lang, Feeds, true, env).value;
    ResetNeverRaises(r.0, r.1, langs[1..], env);
    LanguagesExtend(r.0, r.1, langs[1..], true, env);
    var all := LanguagesRun(r.0, r.1, langs[1..], true, env);
    ExtendsTransitive(mid, r.0, all.value.0);
    assert BackfillRows(rows, languages, env) == all.value.0;
    assert all.value.0[..|mid|] == mid;
    assert all.value.0[|rows|] == mid[|rows|];
  }

  /** The first language's feeds keep the record of a new, recent first item of its first page first. */
  lemma FirstFeedsStore(rows: seq<Announcement>, lang: string, env: Env)
    requires env.maxPages >= 1
    requires var items := env.fetch(lang, Feeds[0], 1);
      items != [] && !IsOld(items[0], env.cutoff) && Suffixed(items[0].sourceId, lang) !in SourceIds(rows)
    ensures var r := FeedsRun(rows, None, lang, Feeds, true, env);
      r.Ok? && Extends(rows + [BackfillRecord(env.fetch(lang, Feeds[0], 1)[0], lang, env.newId(|rows|), env.approvalRequired)], r.value.0)
  {
    var items := env.fetch(lang, Feeds[0], 1);
    var mid := rows + [BackfillRecord(items[0], lang, env.newId(|rows|), env.approvalRequired)];
    var (afterPage, st) := AddPage(rows, items, lang, env);
    assert afterPage == AddPage(mid, items[1..], lang, env).0;
    AddPageExtends(mid, items[1..], lang, env);
    var (afterFeed, st') := Pages(afterPage, Some(st), lang, Feeds[0], 2, env);
    assert Pages(rows, Some(false), lang, Feeds[0], 1, env) == (afterFeed, st');
    PagesExtend(afterPage, Some(st), lang, Feeds[0], 2, env);
    PagesKeepAssigned(afterPage, Some(st), lang, Feeds[0], 2, env);
    ExtendsTransitive(mid, afterPage, afterFeed);
    if !st'.value {
      FeedsNeverRaise(afterFeed, st', lang, Feeds[1..], env);
      FeedsExtend(afterFeed, st', lang, Feeds[1..], true, env);
      ExtendsTransitive(mid, afterFeed, FeedsRun(afterFeed, st', lang, Feeds[1..], true, env).value.0);
    }
  }

  /** One page's item loop, corrected: an id added earlier in the same page is skipped. */
  method RunPage(store: AnnouncementStore, items: seq<Item>, lang: string, env: Env) returns (added: nat, pageStop: bool)
    modifies store
    ensures (store.rows, pageStop) == AddPage(old(store.rows), items, lang, env)
    ensures |old(store.rows)| + added == |store.rows|
  {
    added := 0;
    pageStop := false;
    var i := 0;
    while i < |items|
      invariant 0 <= i <= |items|
      invariant AddPage(old(store.rows), items, lang, env) == AddPage(store.rows, items[i..], lang, env)
      invariant |old(store.rows)| + added == |store.rows|
    {
      var item := items[i];
      assert items[i..][0] == item && items[i..][1..] == items[i + 1..];
      if IsOld(item, env.cutoff) {
        pageStop := true;
        return;
      }
      if Suffixed(item.sourceId, lang) !in SourceIds(store.rows) {
        store.rows := store.rows + [BackfillRecord(item, lang, env.newId(|store.rows|), env.approvalRequired)];
        added := added + 1;
      }
      i := i + 1;
    }
    assert items[i..] == [];
  }

  /** One feed's page loop, with the flag reset to false first. */
  method RunFeed(store: AnnouncementStore, lang: string, feed: string, env: Env) returns (added: nat, stop: bool)
    modifies store
    ensures (store.rows, Some(stop)) == Pages(old(store.rows), Some(false), lang, feed, 1, env)
    ensures |old(store.rows)| + added == |store.rows|
  {
    added := 0;
    stop := false;
    var page := 1;
    while page <= env.maxPages
      invariant 1 <= page
      invariant Pages(old(store.rows), Some(false), lang, feed, 1, env) == Pages(store.rows, Some(stop), lang, feed, page, env)
      invariant |old(store.rows)| + added == |store.rows|
      decreases env.maxPages + 1 - page
    {
      var items := env.fetch(lang, feed, page);
      if items == [] {
        return;
      }
      var n;
      n, stop := RunPage(store, items, lang, env);
      added := added + n;
      page := page + 1;
    }
  }

  /** One language's feed loop. */
  method RunLanguage(store: AnnouncementStore, stopIn: Option<bool>, lang: string, env: Env) returns (added: nat, stop: Option<bool>)
    modifies store
    ensures FeedsRun(old(store.rows), stopIn, lang, Feeds, true, env) == Ok((store.rows, stop))
    ensures |old(store.rows)| + added == |store.rows|
  {
    added := 0;
    stop := stopIn;
    var i := 0;
    while i < |Feeds|
      invariant 0 <= i <= |Feeds|
      invariant FeedsRun(old(store.rows), stopIn, lang, Feeds, true, env) == FeedsRun(store.rows, stop, lang, Feeds[i..], true, env)
      invariant |old(store.rows)| + added == |store.rows|
    {
      assert Feeds[i..][1..] == Feeds[i + 1..];
      var n, st := RunFeed(store, lang, Feeds[i], env);
      added := added + n;
      stop := Some(st);
      if st {
        return;
      }
      i := i + 1;
    }
    assert Feeds[i..] == [];
  }

  /** The backfill returns how many rows it added, and the languages default to ["en"]. */
  method RunBackfill(store: AnnouncementStore, languages: Option<seq<string>>, env: Env) returns (total: nat)
    modifies store
    ensures store.rows == BackfillRows(old(store.rows), languages, env)
    ensures |old(store.rows)| + total == |store.rows|
  {
    var langs := Languages(languages);
    total := 0;
    var stop: Option<bool> := None;
    var i := 0;
    while i < |langs|
      invariant 0 <= i <= |langs|
      invariant LanguagesRun(old(store.rows), None, langs, true, env) == LanguagesRun(store.rows, stop, langs[i..], true, env)
      invariant |old(store.rows)| + total == |store.rows|
    {
      assert langs[i..][0] == langs[i] && langs[i..][1..] == langs[i + 1..];
      var n;
      n, stop := RunLanguage(store, stop, langs[i], env);
      total := total + n;
      i := i + 1;
    }
    assert langs[i..] == [];
  }
}
