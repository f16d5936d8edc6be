/**
 * The terminal side of the logging setup: the level-name normalisation,
 * the console filter that shows warnings, key events and (unless only key
 * events are wanted) records at or above the configured level, and the
 * record `log_key_event` emits. The logger's level registry is a map from
 * level name to severity; Python's `%` formatting is the parameter
 * `format`, None where it raises.
 */
module LoggingConfig {
  import opened Common

  /** The levels the logger knows out of the box, with their severities. */
  const StandardLevels: map<string, nat> := map[
    "TRACE" := 5, "DEBUG" := 10, "INFO" := 20, "SUCCESS" := 25,
    "WARNING" := 30, "ERROR" := 40, "CRITICAL" := 50]

  /** The severity of WARNING, which the logger does not let a program change. */
  const WarningNo: nat := 30

  /**
   * `_normalize_level`: the stripped, upper-cased name when the logger
   * knows it, else the fallback; an absent or empty name gives the fallback.
   */
  function NormalizeLevel(levelName: Option<string>, fallback: string, levels: map<string, nat>): (r: string)
    ensures r == fallback || r in levels
    ensures r != fallback ==> levelName.Some? && r == Upper(Strip(levelName.value))
    ensures levelName.Some? && levelName.value != [] && Upper(Strip(levelName.value)) in levels ==>
      r == Upper(Strip(levelName.value))
  {
    if levelName.None? || levelName.value == [] then fallback
    else
      var candidate := Upper(Strip(levelName.value));
      if candidate in levels then candidate else fallback
  }

  /** Upper-casing keeps a stripped text stripped. */
  lemma UpperStripped(t: string)
    requires Strip(t) == t
    ensures Strip(Upper(t)) == Upper(t)
  {
    if t != [] {
      assert !IsSpace(t[0]) && !IsSpace(t[|t| - 1]);
      var u := Upper(t);
      UpperChars(t);
      assert u[0] == UpperChar(t[0]) && u[|u| - 1] == UpperChar(t[|t| - 1]);
      StripNonSpaceEnds(u);
    }
  }

  /**
   * A normalised name normalises to itself, provided the fallback is
   * empty or already in normal form and no level has the empty name.
   */
  lemma NormalizeLevelIdempotent(levelName: Option<string>, fallback: string, levels: map<string, nat>)
    requires fallback == [] || Upper(Strip(fallback)) == fallback
    requires [] !in levels
    ensures var r := NormalizeLevel(levelName, fallback, levels);
      NormalizeLevel(Some(r), fallback, levels) == r
  {
    var r := NormalizeLevel(levelName, fallback, levels);
    if r != fallback {
      var t := Strip(levelName.value);
      StripIdempotent(levelName.value);
      UpperStripped(t);
      UpperIdempotent(t);
    }
  }

  /** The part of a log record the console filter looks at: its severity and whether `key_event` is set and truthy. */
  datatype LogRecord = LogRecord(levelNo: int, keyEvent: bool)

  /** The console filter `_build_console_filter(min_level_no, key_events_only)` returns, applied to one record. */
  function Passes(minLevelNo: int, keyEventsOnly: bool, record: LogRecord): (r: bool)
    ensures record.levelNo >= WarningNo ==> r
    ensures record.keyEvent ==> r
    ensures keyEventsOnly ==> (r <==> record.levelNo >= WarningNo || record.keyEvent)
    ensures !keyEventsOnly ==> (r <==> record.levelNo >= WarningNo || record.keyEvent || record.levelNo >= minLevelNo)
  {
    if record.levelNo >= WarningNo then true
    else if record.keyEvent then true
    else if keyEventsOnly then false
    else record.levelNo >= minLevelNo
  }

  /** A record that passes keeps passing at a higher severity. */
  lemma PassesMonotone(minLevelNo: int, keyEventsOnly: bool, record: LogRecord, higher: int)
    requires Passes(minLevelNo, keyEventsOnly, record) && record.levelNo <= higher
    ensures Passes(minLevelNo, keyEventsOnly, record.(levelNo := higher))
  {
  }

  /** Asking for key events only never shows a record the full console would hide. */
  lemma KeyEventsOnlyStricter(minLevelNo: int, record: LogRecord)
    ensures Passes(minLevelNo, true, record) ==> Passes(minLevelNo, false, record)
  {
  }

  /** What `log_key_event` hands to the logger. */
  datatype Emitted<A> = Emitted(level: string, message: string, args: seq<A>, keyEvent: bool)

  /**
   * `log_key_event`: the level normalised with fallback INFO, and the
   * message `%`-formatted with the arguments (which are then dropped) when
   * there are arguments and the message holds `%s`; a formatting error
   * leaves message and arguments as they were.
   */
  function LogKeyEvent<A>(level: string, message: string, args: seq<A>,
                          format: (string, seq<A>) -> Option<string>, levels: map<string, nat>): (e: Emitted<A>)
    ensures e.keyEvent
    ensures e.level == NormalizeLevel(Some(level), "INFO", levels)
    ensures args != [] && Contains(message, "%s") && format(message, args).Some? ==>
      e.message == format(message, args).value && e.args == []
    ensures !(args != [] && Contains(message, "%s") && format(message, args).Some?) ==>
      e.message == message && e.args == args
  {
    var normalized := NormalizeLevel(Some(level), "INFO", levels);
    if args != [] && Contains(message, "%s") then
      var formatted := format(message, args);
      if formatted.Some? then Emitted(normalized, formatted.value, [], true)
      else Emitted(normalized, message, args, true)
    else Emitted(normalized, message, args, true)
  }

  /**
   * A key event passes the console filter whatever its level and whatever
   * the filter's settings, at a level the logger knows.
   */
  lemma KeyEventShown<A>(level: string, message: string, args: seq<A>, format: (string, seq<A>) -> Option<string>,
                         levels: map<string, nat>, minLevelNo: int, keyEventsOnly: bool)
    requires "INFO" in levels
    ensures var e := LogKeyEvent(level, message, args, format, levels);
      && e.level in levels
      && Passes(minLevelNo, keyEventsOnly, LogRecord(levels[e.level], e.keyEvent))
  {
  }

  /**
   * The terminal sink of `configure_logging`: the sink's own level, the
   * console level, is checked before the filter, whose minimum is that
   * same level. Nothing below the console level is shown, key events
   * included; at or above it a record is shown when it is a warning, a
   * key event, or only key events are not asked for.
   */
  function ConsoleShows(consoleLevelNo: int, keyEventsOnly: bool, record: LogRecord): (r: bool)
    ensures r <==> record.levelNo >= consoleLevelNo && (record.levelNo >= WarningNo || record.keyEvent || !keyEventsOnly)
    ensures r ==> Passes(consoleLevelNo, keyEventsOnly, record)
  {
    record.levelNo >= consoleLevelNo && Passes(consoleLevelNo, keyEventsOnly, record)
  }

  /**
   * As configured, a key event whose level normalises to INFO (INFO
   * itself, or an empty or unknown name) does not reach a terminal whose
   * level is WARNING, although it passes the filter.
   */
  lemma KeyEventHiddenBelowConsoleLevel<A>(level: string, message: string, args: seq<A>,
                                           format: (string, seq<A>) -> Option<string>, keyEventsOnly: bool)
    requires NormalizeLevel(Some(level), "INFO", StandardLevels) == "INFO"
    ensures var e := LogKeyEvent(level, message, args, format, StandardLevels);
      var record := LogRecord(StandardLevels[e.level], e.keyEvent);
      && Passes(StandardLevels["WARNING"], keyEventsOnly, record)
      && !ConsoleShows(StandardLevels["WARNING"], keyEventsOnly, record)
  {
    assert StandardLevels["INFO"] == 20 && StandardLevels["WARNING"] == 30;
  }
}
