/**
 * The settings and position routes of the HTTP API: validating and saving
 * trading settings into the `.env` file and the process environment,
 * updating one position's exit parameters, and the trailing-stop figures
 * the dashboard shows. The `.env` file is its text, which the route reads
 * as `readlines` cuts it and writes back with `writelines`; the process
 * environment is a map, and Python's `str(float)` the parameter `show`.
 */
module SettingsApi {
  import opened Common
  import opened ExitEngine
  import opened EnvLines

  // ---------------------------------------------------------------------
  // Request validation
  // ---------------------------------------------------------------------

  /** The optional fields of a settings update; None means "not supplied". */
  datatype SettingsUpdate = SettingsUpdate(
    orderType: Option<string>, maxSlippagePct: Option<real>, limitOrderTimeoutSeconds: Option<int>,
    maxOrderAmount: Option<real>, leverage: Option<int>, positionPct: Option<real>,
    trailingExitPct: Option<real>, stopLossPct: Option<real>)

  predicate NoFields(u: SettingsUpdate)
  {
    && u.orderType.None? && u.maxSlippagePct.None? && u.limitOrderTimeoutSeconds.None?
    && u.maxOrderAmount.None? && u.leverage.None? && u.positionPct.None?
    && u.trailingExitPct.None? && u.stopLossPct.None?
  }

  /** Every supplied field lies in its range. */
  predicate Acceptable(u: SettingsUpdate)
  {
    && (u.orderType.Some? ==> Upper(u.orderType.value) == "MARKET" || Upper(u.orderType.value) == "LIMIT")
    && (u.maxSlippagePct.Some? ==> u.maxSlippagePct.value >= 0.0)
    && (u.limitOrderTimeoutSeconds.Some? ==> u.limitOrderTimeoutSeconds.value >= 0)
    && (u.maxOrderAmount.Some? ==> u.maxOrderAmount.value >= 0.0)
    && (u.leverage.Some? ==> u.leverage.value >= 1)
    && (u.positionPct.Some? ==> 0.0 < u.positionPct.value <= 1.0)
    && (u.trailingExitPct.Some? ==> u.trailingExitPct.value >= 0.0)
    && (u.stopLossPct.Some? ==> u.stopLossPct.value >= 0.0)
  }

  /** The 400 details of the validation checks. */
  const OrderTypeMessage := "订单类型必须是 MARKET 或 LIMIT / Order type must be MARKET or LIMIT"
  const SlippageMessage := "最大滑点不能为负数 / Max slippage cannot be negative"
  const TimeoutMessage := "超时时间不能为负数 / Timeout cannot be negative"
  const OrderAmountMessage := "最大订单金额不能为负数 / Max order amount cannot be negative"
  const LeverageMessage := "杠杆倍数必须大于0 / Leverage must be greater than 0"
  const PositionPctMessage := "仓位比例必须在0-1之间 / Position percentage must be between 0 and 1"
  const TrailingExitMessage := "滑动退出百分比不能为负数 / Trailing exit percentage cannot be negative"
  const StopLossMessage := "止损百分比不能为负数 / Stop loss percentage cannot be negative"

  /** The 400 detail of the first failing check, in the order the route checks the fields. */
  function ValidationError(u: SettingsUpdate): (r: Option<string>)
    ensures r.None? <==> Acceptable(u)
  {
    if u.orderType.Some? && Upper(u.orderType.value) != "MARKET" && Upper(u.orderType.value) != "LIMIT" then
      Some(OrderTypeMessage)
    else if u.maxSlippagePct.Some? && u.maxSlippagePct.value < 0.0 then
      Some(SlippageMessage)
    else if u.limitOrderTimeoutSeconds.Some? && u.limitOrderTimeoutSeconds.value < 0 then
      Some(TimeoutMessage)
    else if u.maxOrderAmount.Some? && u.maxOrderAmount.value < 0.0 then
      Some(OrderAmountMessage)
    else if u.leverage.Some? && u.leverage.value < 1 then
      Some(LeverageMessage)
    else if u.positionPct.Some? && !(0.0 < u.positionPct.value <= 1.0) then
      Some(PositionPctMessage)
    else if u.trailingExitPct.Some? && u.trailingExitPct.value < 0.0 then
      Some(TrailingExitMessage)
    else if u.stopLossPct.Some? && u.stopLossPct.value < 0.0 then
      Some(StopLossMessage)
    else None
  }

  /** Order types are accepted in any letter case and saved upper-cased. */
  lemma OrderTypeCaseInsensitive(u: SettingsUpdate, t: string)
    requires u.orderType == Some(t) && Upper(t) == "LIMIT"
    ensures ValidationError(u) == ValidationError(u.(orderType := Some("LIMIT")))
  {
    UpperIdempotent(t);
  }

  // ---------------------------------------------------------------------
  // The changes a valid request makes
  // ---------------------------------------------------------------------

  /** The settings keys, in the order the route lists them. */
  const KeyOrder: seq<string> := ["ORDER_TYPE", "MAX_SLIPPAGE_PCT", "LIMIT_ORDER_TIMEOUT_SECONDS",
    "MAX_ORDER_AMOUNT", "LEVERAGE", "POSITION_PCT", "TRAILING_EXIT_PCT", "STOP_LOSS_PCT"]

  /** Python's `str(float)` is one line without surrounding whitespace. */
  ghost predicate ShowStripped(show: real -> string)
  {
    forall x :: Strip(show(x)) == show(x) && '\n' !in show(x)
  }

  /** The change a request makes to one key: None when its field is not supplied, Some(None) when the key is dropped. */
  function ChangeFor(u: SettingsUpdate, show: real -> string, k: string): Option<Option<string>>
  {
    if k == "ORDER_TYPE" then
      if u.orderType.Some? then Some(Some(Upper(u.orderType.value))) else None
    else if k == "MAX_SLIPPAGE_PCT" then
      if u.maxSlippagePct.Some? then Some(Some(show(u.maxSlippagePct.value))) else None
    else if k == "LIMIT_ORDER_TIMEOUT_SECONDS" then
      if u.limitOrderTimeoutSeconds.Some? then Some(Some(IntText(u.limitOrderTimeoutSeconds.value))) else None
    else if k == "MAX_ORDER_AMOUNT" then
      if u.maxOrderAmount.None? then None
      else if u.maxOrderAmount.value == 0.0 then Some(None)
      else Some(Some(show(u.maxOrderAmount.value)))
    else if k == "LEVERAGE" then
      if u.leverage.Some? then Some(Some(IntText(u.leverage.value))) else None
    else if k == "POSITION_PCT" then
      if u.positionPct.Some? then Some(Some(show(u.positionPct.value))) else None
    else if k == "TRAILING_EXIT_PCT" then
      if u.trailingExitPct.Some? then Some(Some(show(u.trailingExitPct.value))) else None
    else if k == "STOP_LOSS_PCT" then
      if u.stopLossPct.Some? then Some(Some(show(u.stopLossPct.value))) else None
    else None
  }

  /**
   * The new value per supplied key (`keys_to_update` with `env_vars`'
   * new entries), None where the key is dropped: a maximum order amount
   * of 0 means "no limit" and removes the key.
   */
  function Changes(u: SettingsUpdate, show: real -> string): map<string, Option<string>>
  {
    map k | k in KeyOrder && ChangeFor(u, show, k).Some? :: ChangeFor(u, show, k).value
  }

  /** Only MAX_ORDER_AMOUNT with a 0 amount is dropped. */
  lemma ChangeForDropped(u: SettingsUpdate, show: real -> string, k: string)
    ensures ChangeFor(u, show, k).Some? && ChangeFor(u, show, k).value.None? <==>
      k == "MAX_ORDER_AMOUNT" && u.maxOrderAmount == Some(0.0)
  {
  }

  /** Every value a valid request writes is one line and reads back unchanged after stripping. */
  lemma ChangeForStripped(u: SettingsUpdate, show: real -> string, k: string)
    requires Acceptable(u) && ShowStripped(show)
    ensures ChangeFor(u, show, k).Some? && ChangeFor(u, show, k).value.Some? ==>
      Strip(ChangeFor(u, show, k).value.value) == ChangeFor(u, show, k).value.value &&
      '\n' !in ChangeFor(u, show, k).value.value
  {
    var c := ChangeFor(u, show, k);
    if c.Some? && c.value.Some? {
      if k == "ORDER_TYPE" {
        OrderTypeStripped(c.value.value);
      } else if k == "LIMIT_ORDER_TIMEOUT_SECONDS" {
        IntTextStripped(u.limitOrderTimeoutSeconds.value);
        IntTextOneLine(u.limitOrderTimeoutSeconds.value);
      } else if k == "LEVERAGE" {
        IntTextStripped(u.leverage.value);
        IntTextOneLine(u.leverage.value);
      } else if k == "MAX_SLIPPAGE_PCT" {
        ShownStripped(show, u.maxSlippagePct.value);
      } else if k == "MAX_ORDER_AMOUNT" {
        ShownStripped(show, u.maxOrderAmount.value);
      } else if k == "POSITION_PCT" {
        ShownStripped(show, u.positionPct.value);
      } else if k == "TRAILING_EXIT_PCT" {
        ShownStripped(show, u.trailingExitPct.value);
      } else {
        ShownStripped(show, u.stopLossPct.value);
      }
    }
  }

  lemma OrderTypeStripped(t: string)
    requires t == "MARKET" || t == "LIMIT"
    ensures Strip(t) == t && '\n' !in t
  {
    assert !IsSpace(t[0]) && !IsSpace(t[|t| - 1]);
  }

  lemma ShownStripped(show: real -> string, x: real)
    requires ShowStripped(show)
    ensures Strip(show(x)) == show(x) && '\n' !in show(x)
  {
  }

  lemma IntTextOneLine(n: int)
    ensures '\n' !in IntText(n)
  {
    var d := NatDigits(if n < 0 then -n else n);
    assert forall i :: 0 <= i < |d| ==> d[i] != '\n';
    if n < 0 {
      assert IntText(n) == "-" + d;
    }
  }

  /**
   * The keys changed are supplied fields' keys, none exactly when no field
   * is supplied; only MAX_ORDER_AMOUNT with a 0 amount is dropped, and
   * with a valid request every written value is its own strip.
   */
  lemma ChangesSpec(u: SettingsUpdate, show: real -> string)
    ensures var ch := Changes(u, show);
      && (forall k :: k in ch ==> k in KeyOrder)
      && (ch.Keys == {} <==> NoFields(u))
      && (forall k :: k in ch && ch[k].None? <==> k == "MAX_ORDER_AMOUNT" && u.maxOrderAmount == Some(0.0))
      && (Acceptable(u) && ShowStripped(show) ==>
            forall k :: k in ch && ch[k].Some? ==> Strip(ch[k].value) == ch[k].value && '\n' !in ch[k].value)
  {
    var ch := Changes(u, show);
    forall k
      ensures k in ch && ch[k].None? <==> k == "MAX_ORDER_AMOUNT" && u.maxOrderAmount == Some(0.0)
      ensures Acceptable(u) && ShowStripped(show) && k in ch && ch[k].Some? ==> Strip(ch[k].value) == ch[k].value && '\n' !in ch[k].value
    {
      ChangeForDropped(u, show, k);
      if Acceptable(u) && ShowStripped(show) {
        ChangeForStripped(u, show, k);
      }
      if k == "MAX_ORDER_AMOUNT" {
        assert k in KeyOrder;
      }
    }
    NoChangesIffNoFields(u, show);
  }

  lemma NoChangesIffNoFields(u: SettingsUpdate, show: real -> string)
    ensures Changes(u, show).Keys == {} <==> NoFields(u)
  {
    var ch := Changes(u, show);
    var k := if u.orderType.Some? then "ORDER_TYPE"
      else if u.maxSlippagePct.Some? then "MAX_SLIPPAGE_PCT"
      else if u.limitOrderTimeoutSeconds.Some? then "LIMIT_ORDER_TIMEOUT_SECONDS"
      else if u.maxOrderAmount.Some? then "MAX_ORDER_AMOUNT"
      else if u.leverage.Some? then "LEVERAGE"
      else if u.positionPct.Some? then "POSITION_PCT"
      else if u.trailingExitPct.Some? then "TRAILING_EXIT_PCT"
      else "STOP_LOSS_PCT";
    assert k in KeyOrder;
    if !NoFields(u) {
      assert ChangeFor(u, show, k).Some?;
      assert k in ch;
    }
  }

  lemma KeyOrderClean()
    ensures forall k :: k in KeyOrder ==> CleanKey(k) && '\n' !in k
  {
    KeyOrderUpper();
    forall k | k in KeyOrder ensures CleanKey(k) && '\n' !in k {
      UpperNameClean(k);
    }
  }

  lemma KeyOrderUpper()
    ensures forall k :: k in KeyOrder ==> UpperName(k)
  {
    FirstKeysUpper();
    LastKeysUpper();
  }

  lemma FirstKeysUpper()
    ensures forall k :: k in KeyOrder[..4] ==> UpperName(k)
  {
    assert UpperName("ORDER_TYPE");
    assert UpperName("MAX_SLIPPAGE_PCT");
    assert UpperName("LIMIT_ORDER_TIMEOUT_SECONDS");
    assert UpperName("MAX_ORDER_AMOUNT");
  }

  lemma LastKeysUpper()
    ensures forall k :: k in KeyOrder[4..] ==> UpperName(k)
  {
    assert UpperName("LEVERAGE");
    assert UpperName("POSITION_PCT");
    assert UpperName("TRAILING_EXIT_PCT");
    assert UpperName("STOP_LOSS_PCT");
  }

  /** A name of capital letters and underscores, starting with a letter. */
  predicate UpperName(k: string)
  {
    k != [] && 'A' <= k[0] <= 'Z' && forall i :: 0 <= i < |k| ==> ('A' <= k[i] <= 'Z') || k[i] == '_'
  }

  lemma UpperNameClean(k: string)
    requires UpperName(k)
    ensures CleanKey(k) && '\n' !in k
  {
    assert 'A' <= k[|k| - 1] <= 'Z' || k[|k| - 1] == '_';
  }

  /** `env_vars` after the route's updates: new values set, dropped keys removed, the rest kept. */
  function Apply(env: map<string, string>, ch: map<string, Option<string>>): (r: map<string, string>)
    ensures forall k :: k !in ch ==> (k in r <==> k in env) && (k in env ==> r[k] == env[k])
    ensures forall k :: k in ch ==> (k in r <==> ch[k].Some?) && (k in r ==> r[k] == ch[k].value)
  {
    map k | k in env.Keys + ch.Keys && (k in ch ==> ch[k].Some?) :: if k in ch then ch[k].value else env[k]
  }

  // ---------------------------------------------------------------------
  // Reading the .env file
  // ---------------------------------------------------------------------

  function KeyOf(parse: LineParser, line: string): Option<string>
  {
    if parse(line).Some? then Some(parse(line).value.0) else None
  }

  function Entry(parse: LineParser, line: string): map<string, string>
  {
    if parse(line).Some? then map[parse(line).value.0 := parse(line).value.1] else map[]
  }

  /** The `env_vars` dictionary of a file; a later line overrides an earlier one. */
  function Entries(parse: LineParser, lines: seq<string>): map<string, string>
  {
    if lines == [] then map[] else Entry(parse, lines[0]) + Entries(parse, lines[1..])
  }

  lemma UnionAssociative(a: map<string, string>, b: map<string, string>, c: map<string, string>)
    ensures (a + b) + c == a + (b + c)
  {
  }

  lemma {:induction false} EntriesConcat(parse: LineParser, a: seq<string>, b: seq<string>)
    ensures Entries(parse, a + b) == Entries(parse, a) + Entries(parse, b)
  {
    if a == [] {
      assert a + b == b;
    } else {
      assert (a + b)[0] == a[0] && (a + b)[1..] == a[1..] + b;
      EntriesConcat(parse, a[1..], b);
      UnionAssociative(Entry(parse, a[0]), Entries(parse, a[1..]), Entries(parse, b));
    }
  }

  /** One line of the reading loop: its entry, if any, is stored over what the earlier lines gave. */
  lemma ReadStep(parse: LineParser, lines: seq<string>, i: int, env: map<string, string>)
    requires 0 <= i < |lines|
    ensures var e := parse(lines[i]);
      var next := if e.Some? then env[e.value.0 := e.value.1] else env;
      env + Entries(parse, lines[i..]) == next + Entries(parse, lines[i + 1..])
  {
    assert lines[i..][0] == lines[i] && lines[i..][1..] == lines[i + 1..];
    UnionAssociative(env, Entry(parse, lines[i]), Entries(parse, lines[i + 1..]));
    var e := parse(lines[i]);
    if e.Some? {
      assert env + Entry(parse, lines[i]) == env[e.value.0 := e.value.1];
    } else {
      assert env + Entry(parse, lines[i]) == env;
    }
  }

  /** `env_vars` as the route builds it: one line at a time. */
  method ReadEnv(parse: LineParser, lines: seq<string>) returns (env: map<string, string>)
    ensures env == Entries(parse, lines)
  {
    env := map[];
    var i := 0;
    while i < |lines|
      invariant 0 <= i <= |lines|
      invariant Entries(parse, lines) == env + Entries(parse, lines[i..])
    {
      ReadStep(parse, lines, i, env);
      var entry := parse(lines[i]);
      if entry.Some? {
        env := env[entry.value.0 := entry.value.1];
      }
      i := i + 1;
    }
    assert lines[i..] == [];
  }

  // ---------------------------------------------------------------------
  // Rewriting the .env file
  // ---------------------------------------------------------------------

  /** Keys being updated that some line of the file carries. */
  function FoundKeys(parse: LineParser, lines: seq<string>, keys: set<string>): set<string>
  {
    if lines == [] then {}
    else
      var k := KeyOf(parse, lines[0]);
      (if k.Some? && k.value in keys then {k.value} else {}) + FoundKeys(parse, lines[1..], keys)
  }

  /** The message of the `KeyError` a dictionary lookup of a missing key raises. */
  function KeyError(k: string): string
  {
    "'" + k + "'"
  }

  /** The line loop as written: the updated key's value is looked up in `env_vars`, which raises for a dropped key. */
  function RewriteAsWritten(parse: LineParser, lines: seq<string>, keys: set<string>, env: map<string, string>): Result<seq<string>>
  {
    if lines == [] then Ok([])
    else
      var k := KeyOf(parse, lines[0]);
      if k.Some? && k.value in keys && k.value !in env then Err(KeyError(k.value))
      else
        var rest := RewriteAsWritten(parse, lines[1..], keys, env);
        if rest.Err? then rest
        else if k.Some? && k.value in keys then Ok([SettingText(k.value, env[k.value])] + rest.value)
        else Ok([lines[0]] + rest.value)
  }

  /** The missing-key loop as written; it raises for a dropped key the file did not carry. */
  function AppendAsWritten(order: seq<string>, keys: set<string>, found: set<string>, env: map<string, string>): Result<seq<string>>
  {
    if order == [] then Ok([])
    else
      var k := order[0];
      if k in keys && k !in found && k !in env then Err(KeyError(k))
      else
        var rest := AppendAsWritten(order[1..], keys, found, env);
        if rest.Err? then rest
        else if k in keys && k !in found then Ok([SettingText(k, env[k])] + rest.value)
        else Ok(rest.value)
  }

  /**
   * The line loop: a line whose key is updated becomes `KEY=value`, a line
   * whose key is dropped goes, and every other line stays as it is.
   */
  function Rewrite(parse: LineParser, lines: seq<string>, keys: set<string>, env: map<string, string>): seq<string>
  {
    if lines == [] then []
    else
      var k := KeyOf(parse, lines[0]);
      var rest := Rewrite(parse, lines[1..], keys, env);
      if k.Some? && k.value in keys then
        if k.value in env then [SettingText(k.value, env[k.value])] + rest else rest
      else [lines[0]] + rest
  }

  /** Updated keys no line carried, appended in the route's key order. */
  function AppendMissing(order: seq<string>, keys: set<string>, found: set<string>, env: map<string, string>): seq<string>
  {
    if order == [] then []
    else
      var k := order[0];
      var rest := AppendMissing(order[1..], keys, found, env);
      if k in keys && k !in found && k in env then [SettingText(k, env[k])] + rest else rest
  }

  /**
   * With no key dropped the rewrite is line by line: updated lines become
   * `KEY=value` and all others keep their text and position.
   */
  lemma {:induction false} RewriteInPlace(parse: LineParser, lines: seq<string>, keys: set<string>, env: map<string, string>)
    requires keys <= env.Keys
    ensures var r := Rewrite(parse, lines, keys, env);
      && |r| == |lines|
      && forall i :: 0 <= i < |lines| ==>
           var k := KeyOf(parse, lines[i]);
           r[i] == if k.Some? && k.value in keys then SettingText(k.value, env[k.value]) else lines[i]
  {
    if lines != [] {
      RewriteInPlace(parse, lines[1..], keys, env);
      var r := Rewrite(parse, lines, keys, env);
      forall i | 1 <= i < |lines|
        ensures r[i] == Rewrite(parse, lines[1..], keys, env)[i - 1]
      {
      }
    }
  }

  /** The as-written line loop agrees with the corrected one until it raises, and raises only for a dropped key. */
  lemma {:induction false} RewriteAsWrittenAgrees(parse: LineParser, lines: seq<string>, keys: set<string>, env: map<string, string>)
    ensures var w := RewriteAsWritten(parse, lines, keys, env);
      && (w.Ok? <==> FoundKeys(parse, lines, keys) <= env.Keys)
      && (w.Ok? ==> w.value == Rewrite(parse, lines, keys, env))
      && (w.Err? ==> exists k :: k in keys && k !in env && w.error == KeyError(k))
  {
    if lines != [] {
      RewriteAsWrittenAgrees(parse, lines[1..], keys, env);
    }
  }

  lemma {:induction false} AppendAsWrittenAgrees(order: seq<string>, keys: set<string>, found: set<string>, env: map<string, string>)
    ensures var w := AppendAsWritten(order, keys, found, env);
      && (w.Ok? <==> forall k :: k in order && k in keys && k !in found ==> k in env)
      && (w.Ok? ==> w.value == AppendMissing(order, keys, found, env))
      && (w.Err? ==> exists k :: k in keys && k !in env && w.error == KeyError(k))
  {
    if order != [] {
      AppendAsWrittenAgrees(order[1..], keys, found, env);
    }
  }

  /** Each line written for an updated key reads back as that key and its new value. */
  ghost predicate WritesBack(parse: LineParser, keys: set<string>, env: map<string, string>)
  {
    forall k :: k in keys && k in env ==> parse(SettingText(k, env[k])) == Some((k, env[k]))
  }

  lemma EntriesCons(parse: LineParser, line: string, rest: seq<string>)
    ensures Entries(parse, [line] + rest) == Entry(parse, line) + Entries(parse, rest)
  {
    assert ([line] + rest)[0] == line && ([line] + rest)[1..] == rest;
  }

  /** Reading back the rewritten lines: other keys as before, updated keys with their new value or gone. */
  lemma {:induction false} RewriteReadBack(parse: LineParser, lines: seq<string>, keys: set<string>, env: map<string, string>)
    requires WritesBack(parse, keys, env)
    ensures var after := Entries(parse, Rewrite(parse, lines, keys, env));
      var before := Entries(parse, lines);
      forall k ::
        && (k !in keys ==> (k in after <==> k in before) && (k in before ==> after[k] == before[k]))
        && (k in keys ==> (k in after <==> k in FoundKeys(parse, lines, keys) && k in env) && (k in after ==> after[k] == env[k]))
  {
    if lines != [] {
      RewriteReadBack(parse, lines[1..], keys, env);
      var k := KeyOf(parse, lines[0]);
      var rest := Rewrite(parse, lines[1..], keys, env);
      if k.Some? && k.value in keys {
        if k.value in env {
          EntriesCons(parse, SettingText(k.value, env[k.value]), rest);
        }
      } else {
        EntriesCons(parse, lines[0], rest);
      }
    }
  }

  /** Reading back the appended lines: exactly the updated keys no line carried, with their new values. */
  lemma {:induction false} AppendReadBack(parse: LineParser, order: seq<string>, keys: set<string>, found: set<string>, env: map<string, string>)
    requires WritesBack(parse, keys, env)
    ensures var added := Entries(parse, AppendMissing(order, keys, found, env));
      forall k :: (k in added <==> k in order && k in keys && k !in found && k in env) && (k in added ==> added[k] == env[k])
  {
    if order != [] {
      AppendReadBack(parse, order[1..], keys, found, env);
      var k := order[0];
      var rest := AppendMissing(order[1..], keys, found, env);
      if k in keys && k !in found && k in env {
        EntriesCons(parse, SettingText(k, env[k]), rest);
      }
    }
  }

  /** The rewrite loops of the route: rewritten lines, then the missing keys. */
  method RewriteEnvFile(parse: LineParser, lines: seq<string>, keys: set<string>, env: map<string, string>) returns (updated: seq<string>)
    ensures updated == Rewrite(parse, lines, keys, env) + AppendMissing(KeyOrder, keys, FoundKeys(parse, lines, keys), env)
  {
    var rewritten, updatedKeys := RewriteLines(parse, lines, keys, env);
    var appended := AppendLines(keys, updatedKeys, env);
    updated := rewritten + appended;
  }

  /** The line loop: each line is kept, replaced by `KEY=value`, or dropped, and the updated keys met are collected. */
  method RewriteLines(parse: LineParser, lines: seq<string>, keys: set<string>, env: map<string, string>)
    returns (updated: seq<string>, updatedKeys: set<string>)
    ensures updated == Rewrite(parse, lines, keys, env)
    ensures updatedKeys == FoundKeys(parse, lines, keys)
  {
    updated := [];
    updatedKeys := {};
    var i := 0;
    while i < |lines|
      invariant 0 <= i <= |lines|
      invariant Rewrite(parse, lines, keys, env) == updated + Rewrite(parse, lines[i..], keys, env)
      invariant FoundKeys(parse, lines, keys) == updatedKeys + FoundKeys(parse, lines[i..], keys)
    {
      RewriteAt(parse, lines, i, keys, env);
      ghost var rest := Rewrite(parse, lines[i + 1..], keys, env);
      var entry := parse(lines[i]);
      if entry.Some? && entry.value.0 in keys {
        var key := entry.value.0;
        if key in env {
          PushAssoc(updated, SettingText(key, env[key]), rest);
          updated := updated + [SettingText(key, env[key])];
        }
        updatedKeys := updatedKeys + {key};
      } else {
        PushAssoc(updated, lines[i], rest);
        updated := updated + [lines[i]];
      }
      i := i + 1;
    }
    assert lines[i..] == [];
    assert updated + [] == updated && updatedKeys + {} == updatedKeys;
  }

  /** `RewriteStep` at position `i` of the file. */
  lemma RewriteAt(parse: LineParser, lines: seq<string>, i: int, keys: set<string>, env: map<string, string>)
    requires 0 <= i < |lines|
    ensures var k := KeyOf(parse, lines[i]);
      var rest := Rewrite(parse, lines[i + 1..], keys, env);
      var found := FoundKeys(parse, lines[i + 1..], keys);
      && Rewrite(parse, lines[i..], keys, env) ==
           (if k.Some? && k.value in keys then (if k.value in env then [SettingText(k.value, env[k.value])] + rest else rest)
            else [lines[i]] + rest)
      && FoundKeys(parse, lines[i..], keys) == (if k.Some? && k.value in keys then {k.value} else {}) + found
  {
    RewriteStep(parse, lines[i..], keys, env);
    assert lines[i..][0] == lines[i] && lines[i..][1..] == lines[i + 1..];
  }

  lemma RewriteStep(parse: LineParser, lines: seq<string>, keys: set<string>, env: map<string, string>)
    requires lines != []
    ensures var k := KeyOf(parse, lines[0]);
      var rest := Rewrite(parse, lines[1..], keys, env);
      var found := FoundKeys(parse, lines[1..], keys);
      && Rewrite(parse, lines, keys, env) ==
           (if k.Some? && k.value in keys then (if k.value in env then [SettingText(k.value, env[k.value])] + rest else rest)
            else [lines[0]] + rest)
      && FoundKeys(parse, lines, keys) == (if k.Some? && k.value in keys then {k.value} else {}) + found
  {
  }

  /** The missing-key loop: `KEY=value` for each updated key no line carried, in the route's key order. */
  method AppendLines(keys: set<string>, found: set<string>, env: map<string, string>) returns (appended: seq<string>)
    ensures appended == AppendMissing(KeyOrder, keys, found, env)
  {
    appended := [];
    var j := 0;
    while j < |KeyOrder|
      invariant 0 <= j <= |KeyOrder|
      invariant AppendMissing(KeyOrder, keys, found, env) == appended + AppendMissing(KeyOrder[j..], keys, found, env)
    {
      assert KeyOrder[j..][0] == KeyOrder[j] && KeyOrder[j..][1..] == KeyOrder[j + 1..];
      var key := KeyOrder[j];
      if key in keys && key !in found && key in env {
        appended := appended + [SettingText(key, env[key])];
      }
      j := j + 1;
    }
    assert KeyOrder[j..] == [];
    assert appended + [] == appended;
  }

  // ---------------------------------------------------------------------
  // The written lines as lines of text
  // ---------------------------------------------------------------------

  /** A `KEY=value` line of a one-line key and value is a complete line. */
  lemma SettingTextLine(k: string, v: string)
    requires '\n' !in k && '\n' !in v
    ensures IsLine(SettingText(k, v))
  {
    var t := SettingText(k, v);
    assert t[..|t| - 1] == (k + "=") + v;
  }

  lemma CompleteConcat(a: seq<string>, b: seq<string>)
    requires AllComplete(a) && AllComplete(b)
    ensures AllComplete(a + b)
  {
    forall i | 0 <= i < |a + b| ensures IsLine((a + b)[i]) {
      if i < |a| {
        assert (a + b)[i] == a[i];
      } else {
        assert (a + b)[i] == b[i - |a|];
      }
    }
  }

  /** The lines the route writes for its updated keys are complete lines. */
  ghost predicate WritesLines(keys: set<string>, env: map<string, string>)
  {
    forall k :: k in keys && k in env ==> IsLine(SettingText(k, env[k]))
  }

  /** Rewriting complete lines gives complete lines. */
  lemma {:induction false} RewriteComplete(parse: LineParser, lines: seq<string>, keys: set<string>, env: map<string, string>)
    requires AllComplete(lines) && WritesLines(keys, env)
    ensures AllComplete(Rewrite(parse, lines, keys, env))
  {
    if lines != [] {
      assert AllComplete(lines[1..]) by {
        forall i | 0 <= i < |lines[1..]| ensures IsLine(lines[1..][i]) {
          assert lines[1..][i] == lines[i + 1];
        }
      }
      RewriteComplete(parse, lines[1..], keys, env);
      RewriteStep(parse, lines, keys, env);
      var k := KeyOf(parse, lines[0]);
      var head := if k.Some? && k.value in keys then (if k.value in env then [SettingText(k.value, env[k.value])] else [])
                  else [lines[0]];
      assert Rewrite(parse, lines, keys, env) == head + Rewrite(parse, lines[1..], keys, env);
      CompleteConcat(head, Rewrite(parse, lines[1..], keys, env));
    }
  }

  /** The appended lines are complete lines. */
  lemma {:induction false} AppendComplete(order: seq<string>, keys: set<string>, found: set<string>, env: map<string, string>)
    requires WritesLines(keys, env)
    ensures AllComplete(AppendMissing(order, keys, found, env))
  {
    if order != [] {
      AppendComplete(order[1..], keys, found, env);
      var k := order[0];
      if k in keys && k !in found && k in env {
        CompleteConcat([SettingText(k, env[k])], AppendMissing(order[1..], keys, found, env));
      }
    }
  }

  /** The first appended line is `KEY=value` for an updated key. */
  lemma {:induction false} AppendMissingHead(order: seq<string>, keys: set<string>, found: set<string>, env: map<string, string>)
    requires AppendMissing(order, keys, found, env) != []
    ensures exists k :: k in keys && k in env && AppendMissing(order, keys, found, env)[0] == SettingText(k, env[k])
  {
    var k := order[0];
    if !(k in keys && k !in found && k in env) {
      AppendMissingHead(order[1..], keys, found, env);
    }
  }

  /** Terminating the last line changes nothing the route reads. */
  lemma TerminatedEntries(lines: seq<string>)
    ensures Entries(EnvLine, Terminated(lines)) == Entries(EnvLine, lines)
  {
    if lines != [] && !EndsWithNewline(lines[|lines| - 1]) {
      var n := |lines| - 1;
      var l := lines[n];
      assert lines == lines[..n] + [l];
      EntriesConcat(EnvLine, lines[..n], [l]);
      EntriesConcat(EnvLine, lines[..n], [l + "\n"]);
      EnvLineNewline(l);
      assert Entries(EnvLine, [l]) == Entry(EnvLine, l) + Entries(EnvLine, []);
      assert Entries(EnvLine, [l + "\n"]) == Entry(EnvLine, l + "\n") + Entries(EnvLine, []);
    }
  }

  // ---------------------------------------------------------------------
  // The settings route
  // ---------------------------------------------------------------------

  datatype Response = Saved(updated: set<string>) | NothingToUpdate | HttpError(status: nat, detail: string)

  /** The response, the `.env` file (None when absent) and the process environment afterwards. */
  datatype Outcome = Outcome(response: Response, file: Option<string>, environ: map<string, string>)

  /** The answers before any file is written: a missing file, a rejected field, or nothing to update. */
  function Precheck(u: SettingsUpdate, file: Option<string>): (r: Option<Response>)
    ensures r.None? <==> file.Some? && Acceptable(u) && !NoFields(u)
    ensures r == Some(NothingToUpdate) <==> file.Some? && Acceptable(u) && NoFields(u)
  {
    if file.None? then Some(HttpError(404, "未找到 .env 文件 / .env file not found"))
    else if ValidationError(u).Some? then Some(HttpError(400, ValidationError(u).value))
    else if NoFields(u) then Some(NothingToUpdate)
    else None
  }

  const UpdateFailed := "更新配置失败 / Failed to update settings: "
  const WriteFailed := "写入配置文件失败 / Failed to write config file: "

  /** The environment after saving: every updated key still in `env_vars` set to its value there. */
  function Exported(environ: map<string, string>, keys: set<string>, env: map<string, string>): map<string, string>
  {
    environ + map k | k in keys && k in env :: env[k]
  }

  /**
   * `update_settings_api` as written: dropping MAX_ORDER_AMOUNT removes it
   * from `env_vars` but keeps it among the keys to write, and the lookup of
   * its value raises, which the route answers with a 500; and the lines are
   * written back as read, so an appended line follows a last line without
   * a line break on that same line.
   */
  function UpdateSettingsAsWritten(u: SettingsUpdate, file: Option<string>, environ: map<string, string>,
                                   show: real -> string, writeError: Option<string>): Outcome
  {
    var stop := Precheck(u, file);
    if stop.Some? then Outcome(stop.value, file, environ)
    else
      var lines := ReadLines(file.value);
      var ch := Changes(u, show);
      var keys := ch.Keys;
      var env := Apply(Entries(EnvLine, lines), ch);
      var rewritten := RewriteAsWritten(EnvLine, lines, keys, env);
      if rewritten.Err? then Outcome(HttpError(500, UpdateFailed + rewritten.error), file, environ)
      else
        var appended := AppendAsWritten(KeyOrder, keys, FoundKeys(EnvLine, lines, keys), env);
        if appended.Err? then Outcome(HttpError(500, UpdateFailed + appended.error), file, environ)
        else if writeError.Some? then Outcome(HttpError(500, WriteFailed + writeError.value), file, environ)
        else Outcome(Saved(keys), Some(Joined(rewritten.value + appended.value)), Exported(environ, keys, env))
  }

  /**
   * `update_settings_api` as intended: a dropped key loses its line in the
   * file and its entry in the environment, and a last line without a line
   * break gets one before anything is written after it.
   */
  function UpdateSettings(u: SettingsUpdate, file: Option<string>, environ: map<string, string>,
                          show: real -> string, writeError: Option<string>): Outcome
  {
    var stop := Precheck(u, file);
    if stop.Some? then Outcome(stop.value, file, environ)
    else
      var lines := Terminated(ReadLines(file.value));
      var ch := Changes(u, show);
      var keys := ch.Keys;
      var env := Apply(Entries(EnvLine, lines), ch);
      var updated := Rewrite(EnvLine, lines, keys, env) + AppendMissing(KeyOrder, keys, FoundKeys(EnvLine, lines, keys), env);
      if writeError.Some? then Outcome(HttpError(500, WriteFailed + writeError.value), file, environ)
      else Outcome(Saved(keys), Some(Joined(updated)), Exported(environ - (keys - env.Keys), keys, env))
  }

  /** With one key dropped from `env_vars`, one of the as-written loops raises, naming that key. */
  lemma DroppedKeyRaises(parse: LineParser, lines: seq<string>, keys: set<string>, env: map<string, string>, k: string)
    requires k in keys && k in KeyOrder && keys - env.Keys == {k}
    ensures var found := FoundKeys(parse, lines, keys);
      var w := RewriteAsWritten(parse, lines, keys, env);
      var a := AppendAsWritten(KeyOrder, keys, found, env);
      && (w.Err? ==> w.error == KeyError(k))
      && (w.Ok? ==> a.Err? && a.error == KeyError(k))
  {
    var found := FoundKeys(parse, lines, keys);
    RewriteAsWrittenAgrees(parse, lines, keys, env);
    AppendAsWrittenAgrees(KeyOrder, keys, found, env);
    var w := RewriteAsWritten(parse, lines, keys, env);
    if w.Err? {
      var k' :| k' in keys && k' !in env && w.error == KeyError(k');
      assert k' in keys - env.Keys;
    } else {
      assert k !in found;
      var a := AppendAsWritten(KeyOrder, keys, found, env);
      var k' :| k' in keys && k' !in env && a.error == KeyError(k');
      assert k' in keys - env.Keys;
    }
  }

  /** Setting the maximum order amount to 0 always fails with a 500 as written, whatever the file holds. */
  lemma ZeroOrderAmountFailsAsWritten(u: SettingsUpdate, text: string, environ: map<string, string>,
                                      show: real -> string, writeError: Option<string>)
    requires Acceptable(u) && u.maxOrderAmount == Some(0.0)
    ensures UpdateSettingsAsWritten(u, Some(text), environ, show, writeError) ==
      Outcome(HttpError(500, UpdateFailed + KeyError("MAX_ORDER_AMOUNT")), Some(text), environ)
  {
    ChangesSpec(u, show);
    var lines := ReadLines(text);
    var ch := Changes(u, show);
    var keys := ch.Keys;
    var env := Apply(Entries(EnvLine, lines), ch);
    assert Precheck(u, Some(text)).None?;
    assert "MAX_ORDER_AMOUNT" in KeyOrder;
    assert "MAX_ORDER_AMOUNT" in keys && "MAX_ORDER_AMOUNT" !in env;
    assert keys - env.Keys == {"MAX_ORDER_AMOUNT"};
    DroppedKeyRaises(EnvLine, lines, keys, env, "MAX_ORDER_AMOUNT");
  }

  /**
   * Apart from dropping the maximum order amount and from a file whose
   * last line has no line break, the route as written and as intended agree.
   */
  lemma AsWrittenAgreesWithoutDrop(u: SettingsUpdate, file: Option<string>, environ: map<string, string>,
                                   show: real -> string, writeError: Option<string>)
    requires u.maxOrderAmount != Some(0.0)
    requires file.Some? ==> file.value == [] || file.value[|file.value| - 1] == '\n'
    ensures UpdateSettingsAsWritten(u, file, environ, show, writeError) == UpdateSettings(u, file, environ, show, writeError)
  {
    if Precheck(u, file).None? {
      ChangesSpec(u, show);
      TerminatedText(file.value);
      var lines := ReadLines(file.value);
      var ch := Changes(u, show);
      var keys := ch.Keys;
      var env := Apply(Entries(EnvLine, lines), ch);
      assert keys <= env.Keys;
      assert keys - env.Keys == {};
      assert environ - (keys - env.Keys) == environ;
      RewriteAsWrittenAgrees(EnvLine, lines, keys, env);
      AppendAsWrittenAgrees(KeyOrder, keys, FoundKeys(EnvLine, lines, keys), env);
    }
  }

  /**
   * After a successful save, reading the file's text back line by line
   * gives exactly the `env_vars` the route computed: new values for the
   * supplied keys, no entry for a dropped key, and every other key as before.
   */
  lemma SavedFileReadsBack(u: SettingsUpdate, text: string, environ: map<string, string>, show: real -> string)
    requires Acceptable(u) && !NoFields(u) && ShowStripped(show)
    ensures var o := UpdateSettings(u, Some(text), environ, show, None);
      && o.response == Saved(Changes(u, show).Keys)
      && o.file.Some?
      && Entries(EnvLine, ReadLines(o.file.value)) == Apply(Entries(EnvLine, ReadLines(text)), Changes(u, show))
  {
    var ch := Changes(u, show);
    ChangesSpec(u, show);
    KeyOrderClean();
    EnvLineReadsBack();
    var read := ReadLines(text);
    ReadLinesSpec(text);
    var lines := Terminated(read);
    TerminatedSpec(read);
    TerminatedEntries(read);
    FileReadsBack(EnvLine, lines, ch);
    var keys := ch.Keys;
    var env := Apply(Entries(EnvLine, lines), ch);
    forall k | k in keys && k in env ensures IsLine(SettingText(k, env[k])) {
      SettingTextLine(k, env[k]);
    }
    var r := Rewrite(EnvLine, lines, keys, env);
    var a := AppendMissing(KeyOrder, keys, FoundKeys(EnvLine, lines, keys), env);
    RewriteComplete(EnvLine, lines, keys, env);
    AppendComplete(KeyOrder, keys, FoundKeys(EnvLine, lines, keys), env);
    CompleteConcat(r, a);
    ReadLinesJoined(r + a);
  }

  /**
   * As written, a file whose last line has no line break gets the first
   * appended `KEY=value` line glued onto that line (the file
   * "BINANCE_API_KEY=abc" with leverage 5 becomes
   * "BINANCE_API_KEY=abcLEVERAGE=5\n"), so the last line's key reads back
   * with another value; the corrected route keeps that key's value.
   */
  lemma OpenLastLineGluedAsWritten(u: SettingsUpdate, k0: string, w: string, environ: map<string, string>, show: real -> string)
    requires Acceptable(u) && !NoFields(u) && u.maxOrderAmount != Some(0.0) && ShowStripped(show)
    requires CleanKey(k0) && k0 !in KeyOrder && '\n' !in k0
    requires w != [] && Strip(w) == w && '\n' !in w
    ensures var o := UpdateSettingsAsWritten(u, Some((k0 + "=") + w), environ, show, None);
      && o.response == Saved(Changes(u, show).Keys) && o.file.Some?
      && k0 in Entries(EnvLine, ReadLines(o.file.value))
      && Entries(EnvLine, ReadLines(o.file.value))[k0] != w
    ensures var o := UpdateSettings(u, Some((k0 + "=") + w), environ, show, None);
      && o.file.Some?
      && k0 in Entries(EnvLine, ReadLines(o.file.value))
      && Entries(EnvLine, ReadLines(o.file.value))[k0] == w
  {
    GluedAsWritten(u, k0, w, environ, show);
    OpenLineKept(u, k0, w, environ, show);
  }

  /** The as-written half of `OpenLastLineGluedAsWritten`. */
  lemma GluedAsWritten(u: SettingsUpdate, k0: string, w: string, environ: map<string, string>, show: real -> string)
    requires Acceptable(u) && !NoFields(u) && u.maxOrderAmount != Some(0.0) && ShowStripped(show)
    requires CleanKey(k0) && k0 !in KeyOrder && '\n' !in k0
    requires w != [] && Strip(w) == w && '\n' !in w
    ensures var o := UpdateSettingsAsWritten(u, Some((k0 + "=") + w), environ, show, None);
      && o.response == Saved(Changes(u, show).Keys) && o.file.Some?
      && k0 in Entries(EnvLine, ReadLines(o.file.value))
      && Entries(EnvLine, ReadLines(o.file.value))[k0] != w
  {
    var text := (k0 + "=") + w;
    var ch := Changes(u, show);
    var keys := ch.Keys;
    var env := Apply(map[k0 := w], ch);
    var a := AppendMissing(KeyOrder, keys, {}, env);
    GluedOutcome(u, k0, w, environ, show);
    GluedAppended(u, k0, w, show);
    var K :| K in keys && K in env && a[0] == SettingText(K, env[K]);
    assert '\n' !in K && '\n' !in env[K] && Strip(env[K]) == env[K] by {
      ChangesSpec(u, show);
      KeyOrderClean();
    }
    HeadTail(a);
    GluedRead(k0, w, K, env[K], a[1..]);
  }

  /** The corrected half of `OpenLastLineGluedAsWritten`: the open last line's key keeps its value. */
  lemma OpenLineKept(u: SettingsUpdate, k0: string, w: string, environ: map<string, string>, show: real -> string)
    requires Acceptable(u) && !NoFields(u) && ShowStripped(show)
    requires CleanKey(k0) && k0 !in KeyOrder && '\n' !in k0
    requires w != [] && Strip(w) == w && '\n' !in w
    ensures var o := UpdateSettings(u, Some((k0 + "=") + w), environ, show, None);
      && o.file.Some?
      && k0 in Entries(EnvLine, ReadLines(o.file.value))
      && Entries(EnvLine, ReadLines(o.file.value))[k0] == w
  {
    OpenLineRead(k0, w);
    SavedFileReadsBack(u, (k0 + "=") + w, environ, show);
    ChangesSpec(u, show);
  }

  /** As written, the open line "k0=w" is kept and the updated keys are appended after it. */
  lemma GluedOutcome(u: SettingsUpdate, k0: string, w: string, environ: map<string, string>, show: real -> string)
    requires Acceptable(u) && !NoFields(u) && u.maxOrderAmount != Some(0.0)
    requires CleanKey(k0) && k0 !in KeyOrder && '\n' !in k0
    requires w != [] && Strip(w) == w && '\n' !in w
    ensures var ch := Changes(u, show);
      var env := Apply(map[k0 := w], ch);
      UpdateSettingsAsWritten(u, Some((k0 + "=") + w), environ, show, None) ==
        Outcome(Saved(ch.Keys), Some(Joined([(k0 + "=") + w] + AppendMissing(KeyOrder, ch.Keys, {}, env))),
                Exported(environ, ch.Keys, env))
  {
    var text := (k0 + "=") + w;
    var ch := Changes(u, show);
    var keys := ch.Keys;
    ChangesSpec(u, show);
    OpenLineRead(k0, w);
    var env := Apply(map[k0 := w], ch);
    assert keys <= env.Keys;
    assert k0 !in keys;
    assert [text][1..] == [];
    assert KeyOf(EnvLine, text) == Some(k0);
    assert FoundKeys(EnvLine, [text], keys) == {};
    RewriteAsWrittenAgrees(EnvLine, [text], keys, env);
    assert Rewrite(EnvLine, [text], keys, env) == [text];
    AppendAsWrittenAgrees(KeyOrder, keys, {}, env);
  }

  /** The lines the route writes for the updated keys are complete and read back as written. */
  lemma UpdatedLines(u: SettingsUpdate, show: real -> string, env: map<string, string>)
    requires Acceptable(u) && ShowStripped(show)
    requires forall k :: k in Changes(u, show) && k in env ==> Changes(u, show)[k] == Some(env[k])
    ensures WritesLines(Changes(u, show).Keys, env) && WritesBack(EnvLine, Changes(u, show).Keys, env)
  {
    var ch := Changes(u, show);
    ChangesSpec(u, show);
    KeyOrderClean();
    forall k | k in ch.Keys && k in env
      ensures IsLine(SettingText(k, env[k])) && EnvLine(SettingText(k, env[k])) == Some((k, env[k]))
    {
      assert k in KeyOrder;
      SettingTextLine(k, env[k]);
      SettingLine(k, env[k]);
    }
  }

  /** The lines appended after "k0=w" are complete, at least one, and none carries k0. */
  lemma GluedAppended(u: SettingsUpdate, k0: string, w: string, show: real -> string)
    requires Acceptable(u) && !NoFields(u) && u.maxOrderAmount != Some(0.0) && ShowStripped(show) && k0 !in KeyOrder
    ensures var ch := Changes(u, show);
      var a := AppendMissing(KeyOrder, ch.Keys, {}, Apply(map[k0 := w], ch));
      && a != [] && AllComplete(a[1..])
      && (forall k :: k in Entries(EnvLine, a[1..]) ==> k in KeyOrder)
      && exists k :: k in ch.Keys && k in Apply(map[k0 := w], ch) && a[0] == SettingText(k, Apply(map[k0 := w], ch)[k])
  {
    var ch := Changes(u, show);
    var keys := ch.Keys;
    var env := Apply(map[k0 := w], ch);
    UpdatedLines(u, show, env);
    AppendComplete(KeyOrder, keys, {}, env);
    AppendReadBack(EnvLine, KeyOrder, keys, {}, env);
    var a := AppendMissing(KeyOrder, keys, {}, env);
    NoChangesIffNoFields(u, show);
    var k1 :| k1 in keys;
    assert k1 in KeyOrder && k1 in env by {
      ChangesSpec(u, show);
    }
    assert k1 in Entries(EnvLine, a);
    AppendMissingHead(KeyOrder, keys, {}, env);
    HeadTail(a);
    EntriesCons(EnvLine, a[0], a[1..]);
    forall i | 0 <= i < |a[1..]| ensures IsLine(a[1..][i]) {
      assert a[1..][i] == a[i + 1];
    }
  }

  /** "KEY=value" with no line break reads as its key and value, and is one open line. */
  lemma OpenLineRead(k0: string, w: string)
    requires CleanKey(k0) && '\n' !in k0 && w != [] && Strip(w) == w && '\n' !in w
    ensures EnvLine((k0 + "=") + w) == Some((k0, w))
    ensures ReadLines((k0 + "=") + w) == [(k0 + "=") + w]
    ensures Entries(EnvLine, ReadLines((k0 + "=") + w)) == map[k0 := w]
  {
    var text := (k0 + "=") + w;
    assert text[0] == k0[0] && text[|text| - 1] == w[|w| - 1];
    StripNonSpaceEnds(text);
    IndexAfterKey(k0, w);
    KeyStripped(k0);
    PartsAroundKey(k0, w);
    SplitAtParts(text, |k0|, k0, w);
    assert IsOpenLine(text);
    assert LineShaped([text]);
    assert Joined([text]) == text + Joined([]);
    assert text + [] == text;
    ReadLinesJoined([text]);
    assert Entries(EnvLine, [text]) == Entry(EnvLine, text) + Entries(EnvLine, []);
  }

  /** The value "w" followed by "K=V" is one line, carries no surrounding space, and is longer than "w". */
  lemma GluedValue(w: string, K: string, V: string)
    requires w != [] && Strip(w) == w && '\n' !in w
    requires '\n' !in K && '\n' !in V && Strip(V) == V
    ensures var w' := (w + (K + "=")) + V;
      Strip(w') == w' && '\n' !in w' && |w'| > |w|
  {
    var w' := (w + (K + "=")) + V;
    assert w'[0] == w[0];
    assert w'[|w'| - 1] == if V == [] then '=' else V[|V| - 1];
    StripNonSpaceEnds(w');
    forall i | 0 <= i < |w'| ensures w'[i] != '\n' {
      if i < |w| {
        assert w'[i] == w[i];
      } else if i < |w| + |K| {
        assert w'[i] == K[i - |w|];
      } else if i > |w| + |K| {
        assert w'[i] == V[i - |w| - |K| - 1];
      }
    }
  }

  /** The open line "k0=w" with the line "K=V" glued on reads back with k0 bound to a longer value. */
  lemma GluedRead(k0: string, w: string, K: string, V: string, rest: seq<string>)
    requires CleanKey(k0) && '\n' !in k0 && w != [] && Strip(w) == w && '\n' !in w
    requires '\n' !in K && '\n' !in V && Strip(V) == V
    requires AllComplete(rest) && k0 !in Entries(EnvLine, rest)
    ensures var back := Entries(EnvLine, ReadLines(Joined([(k0 + "=") + w] + ([SettingText(K, V)] + rest))));
      k0 in back && back[k0] != w
  {
    var w' := (w + (K + "=")) + V;
    var glued := SettingText(k0, w');
    var rest' := [glued] + rest;
    assert Joined([(k0 + "=") + w] + ([SettingText(K, V)] + rest)) == Joined(rest') by {
      GluedText(k0, w, K, V);
      GluedJoined((k0 + "=") + w, SettingText(K, V), rest);
    }
    assert EnvLine(glued) == Some((k0, w')) && IsLine(glued) && |w'| > |w| by {
      GluedValue(w, K, V);
      SettingLine(k0, w');
      SettingTextLine(k0, w');
    }
    assert ReadLines(Joined(rest')) == rest' by {
      SingleComplete(glued);
      CompleteConcat([glued], rest);
      ReadLinesJoined(rest');
    }
    EntriesCons(EnvLine, glued, rest);
  }

  lemma HeadTail(a: seq<string>)
    requires a != []
    ensures a == [a[0]] + a[1..]
  {
  }

  lemma SingleComplete(l: string)
    requires IsLine(l)
    ensures AllComplete([l])
  {
  }

  lemma Assoc(a: string, b: string, c: string)
    ensures (a + b) + c == a + (b + c)
  {
  }

  /** The text "k0=w" followed by the line "K=V" is the line of k0 with the value "wK=V". */
  lemma GluedText(k0: string, w: string, K: string, V: string)
    ensures ((k0 + "=") + w) + SettingText(K, V) == SettingText(k0, (w + (K + "=")) + V)
  {
    var P := k0 + "=";
    var Q := K + "=";
    Assoc(P, w, Q + (V + "\n"));
    Assoc(w, Q, V + "\n");
    Assoc(w + Q, V, "\n");
  }

  lemma GluedJoined(text: string, line: string, rest: seq<string>)
    ensures Joined([text] + ([line] + rest)) == Joined([text + line] + rest)
  {
    var all := [text] + ([line] + rest);
    assert all[1..] == [line] + rest && ([line] + rest)[1..] == rest;
    assert ([text + line] + rest)[1..] == rest;
  }

  lemma MapsEqual(m1: map<string, string>, m2: map<string, string>)
    requires forall k :: (k in m1 <==> k in m2) && (k in m1 ==> m1[k] == m2[k])
    ensures m1 == m2
  {
  }

  /** The read-back argument for any parser that reads back the lines the route writes. */
  lemma FileReadsBack(parse: LineParser, lines: seq<string>, ch: map<string, Option<string>>)
    requires ReadsBack(parse)
    requires forall k :: k in ch ==> CleanKey(k) && k in KeyOrder
    requires forall k :: k in ch && ch[k].Some? ==> Strip(ch[k].value) == ch[k].value
    ensures var env := Apply(Entries(parse, lines), ch);
      Entries(parse, Rewrite(parse, lines, ch.Keys, env) + AppendMissing(KeyOrder, ch.Keys, FoundKeys(parse, lines, ch.Keys), env)) == env
  {
    var keys := ch.Keys;
    var before := Entries(parse, lines);
    var env := Apply(before, ch);
    var found := FoundKeys(parse, lines, keys);
    var r := Rewrite(parse, lines, keys, env);
    var a := AppendMissing(KeyOrder, keys, found, env);
    forall k | k in keys && k in env
      ensures parse(SettingText(k, env[k])) == Some((k, env[k]))
    {
      assert Strip(env[k]) == env[k];
    }
    RewriteReadBack(parse, lines, keys, env);
    AppendReadBack(parse, KeyOrder, keys, found, env);
    EntriesConcat(parse, r, a);
    var after := Entries(parse, r) + Entries(parse, a);
    forall k
      ensures (k in after <==> k in env) && (k in after ==> after[k] == env[k])
    {
      if k in keys {
        assert k in KeyOrder;
      }
    }
    MapsEqual(after, env);
  }

  /** After a successful save the environment holds every new value, lacks a dropped key, and is otherwise unchanged. */
  lemma SavedEnviron(u: SettingsUpdate, text: string, environ: map<string, string>, show: real -> string)
    requires Acceptable(u) && !NoFields(u)
    ensures var o := UpdateSettings(u, Some(text), environ, show, None);
      var ch := Changes(u, show);
      forall k ::
        && (k in ch && ch[k].Some? ==> k in o.environ && o.environ[k] == ch[k].value)
        && (k in ch && ch[k].None? ==> k !in o.environ)
        && (k !in ch ==> (k in o.environ <==> k in environ) && (k in environ ==> o.environ[k] == environ[k]))
  {
  }

  /** A failed write changes neither the file nor the environment, and nothing is reported saved. */
  lemma WriteFailureChangesNothing(u: SettingsUpdate, file: Option<string>, environ: map<string, string>,
                                   show: real -> string, error: string)
    ensures var o := UpdateSettings(u, file, environ, show, Some(error));
      o.file == file && o.environ == environ && !o.response.Saved?
  {
  }

  /** The host whose `.env` file and environment the route updates. */
  class Deployment {
    var envFile: Option<string>
    var environ: map<string, string>

    constructor (envFile: Option<string>, environ: map<string, string>)
      ensures this.envFile == envFile && this.environ == environ
    {
      this.envFile := envFile;
      this.environ := environ;
    }

    /**
     * `update_settings_api`, with the dropped key removed from the file and
     * the environment, and a line break added to a last line without one.
     */
    method UpdateSettingsRoute(u: SettingsUpdate, show: real -> string, writeError: Option<string>) returns (response: Response)
      modifies this
      ensures var o := UpdateSettings(u, old(envFile), old(environ), show, writeError);
        response == o.response && envFile == o.file && environ == o.environ
    {
      var stop := Precheck(u, envFile);
      if stop.Some? {
        return stop.value;
      }
      var lines := Terminated(ReadLines(envFile.value));
      var env := ReadEnv(EnvLine, lines);
      var ch := Changes(u, show);
      env := Apply(env, ch);
      var keys := ch.Keys;
      var updated := RewriteEnvFile(EnvLine, lines, keys, env);
      if writeError.Some? {
        return HttpError(500, WriteFailed + writeError.value);
      }
      envFile := Some(Joined(updated));
      environ := Exported(environ - (keys - env.Keys), keys, env);
      response := Saved(keys);
    }
  }

  // ---------------------------------------------------------------------
  // Exit parameters of one position
  // ---------------------------------------------------------------------

  /** `update_position_exit_params` once the position is found: both percentages in [0, 1], at least one given. */
  function UpdateExitParams(p: Position, stopLossPct: Option<real>, trailingExitPct: Option<real>): Result<Position>
  {
    if stopLossPct.Some? && (stopLossPct.value < 0.0 || stopLossPct.value > 1.0) then
      Err("止损百分比必须在0-1之间 / Stop loss percentage must be between 0 and 1")
    else if trailingExitPct.Some? && (trailingExitPct.value < 0.0 || trailingExitPct.value > 1.0) then
      Err("滑动退出百分比必须在0-1之间 / Trailing exit percentage must be between 0 and 1")
    else if stopLossPct.None? && trailingExitPct.None? then
      Err("至少需要提供一个参数 / At least one parameter is required")
    else
      Ok(p.(stopLossPct := if stopLossPct.Some? then stopLossPct.value else p.stopLossPct,
            trailingExitPct := if trailingExitPct.Some? then trailingExitPct.value else p.trailingExitPct))
  }

  /**
   * The update succeeds iff some percentage is given and each given one
   * lies in [0, 1]; it then changes those percentages only, so the
   * recorded high and low keep driving the trailing stop.
   */
  lemma ExitParamsSpec(p: Position, stopLossPct: Option<real>, trailingExitPct: Option<real>)
    ensures var r := UpdateExitParams(p, stopLossPct, trailingExitPct);
      && (r.Ok? <==> (stopLossPct.Some? || trailingExitPct.Some?) &&
                     (stopLossPct.Some? ==> 0.0 <= stopLossPct.value <= 1.0) &&
                     (trailingExitPct.Some? ==> 0.0 <= trailingExitPct.value <= 1.0))
      && (r.Ok? ==> && (stopLossPct.Some? ==> r.value.stopLossPct == stopLossPct.value)
                    && (trailingExitPct.Some? ==> r.value.trailingExitPct == trailingExitPct.value)
                    && r.value.(stopLossPct := p.stopLossPct, trailingExitPct := p.trailingExitPct) == p
                    && TrailingReference(r.value) == TrailingReference(p))
  {
  }

  // ---------------------------------------------------------------------
  // Trailing-stop display
  // ---------------------------------------------------------------------

  datatype TrailingStop = TrailingStop(price: real, distance: real)

  /** The dashboard's trailing-stop price and the distance to it from `current`. */
  function TrailingStopDisplay(p: Position, current: real): Option<TrailingStop>
  {
    if p.side == Buy && NonZero(p.highestPrice) then
      var stop := p.highestPrice.value * (1.0 - p.trailingExitPct);
      Some(TrailingStop(stop, current - stop))
    else if p.side == Sell && NonZero(p.lowestPrice) then
      var stop := p.lowestPrice.value * (1.0 + p.trailingExitPct);
      Some(TrailingStop(stop, stop - current))
    else None
  }

  /**
   * The display exists for a BUY with a high and a SELL with a low, and its
   * distance is at most zero exactly when the exit rule's trailing stop
   * fires at `current`.
   */
  lemma TrailingDisplayAgreesWithExit(p: Position, current: real)
    ensures var d := TrailingStopDisplay(p, current);
      && (d.Some? <==> (p.side == Buy && NonZero(p.highestPrice)) || (p.side == Sell && NonZero(p.lowestPrice)))
      && (d.Some? ==> (d.value.distance <= 0.0 <==> TrailingHit(p, current, TrailingReference(p))))
  {
  }
}
