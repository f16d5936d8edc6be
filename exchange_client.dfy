/**
 * The Binance futures REST client, without the HTTP transport: quantity
 * flooring to the symbol's step size and the quantity text sent with an
 * order, the open-positions transform, the symbol-information cache, the
 * order in which mark-price sources are consulted, the batch price lookup,
 * the class-level caches and the balance formulas.  Every exchange reply is
 * a parameter.
 */
module ExchangeClient {
  import opened Common
  import PriceFeed

  // ---------------------------------------------------------------------
  // Decimals, step flooring and the quantity text
  // ---------------------------------------------------------------------

  /** A Python Decimal: `coef × 10^exp`; the exponent decides how it prints. */
  datatype Dec = Dec(coef: int, exp: int)

  function DecValue(d: Dec): real
  {
    if d.exp >= 0 then (d.coef * Pow10(d.exp)) as real else d.coef as real / Pow10(-d.exp) as real
  }

  /** Decimal's ROUND_DOWN to a whole number: truncation towards zero. */
  function TruncToInt(x: real): (k: int)
    ensures x >= 0.0 ==> k as real <= x < k as real + 1.0
    ensures x < 0.0 ==> k as real - 1.0 < x <= k as real
  {
    if x >= 0.0 then x.Floor else -((-x).Floor)
  }

  /**
   * `(q / step).quantize(Decimal("1"), rounding=ROUND_DOWN) * step` on values;
   * None where the division raises (a zero step).
   */
  function StepFloor(q: real, step: real): (r: Option<real>)
    ensures r.None? <==> step == 0.0
  {
    if step == 0.0 then None else Some(TruncToInt(q / step) as real * step)
  }

  /**
   * For a non-negative quantity and a positive step, flooring gives a
   * whole multiple of the step that is at most the quantity and less than
   * one step below it.
   */
  lemma StepFloorBounds(q: real, step: real)
    requires q >= 0.0 && step > 0.0
    ensures StepFloor(q, step).Some?
    ensures var r := StepFloor(q, step).value;
      && 0.0 <= r <= q
      && q - r < step
      && (r / step).Floor as real == r / step
  {
    var x := q / step;
    DivNonNegative(q, step);
    var k := TruncToInt(x);
    MultipleBounds(q, step, x, k);
    assert StepFloor(q, step).value == k as real * step;
  }

  lemma MultipleBounds(q: real, step: real, x: real, k: int)
    requires q >= 0.0 && step > 0.0 && x == q / step
    requires 0 <= k && k as real <= x < k as real + 1.0
    ensures var r := k as real * step;
      && 0.0 <= r <= q
      && q - r < step
      && (r / step).Floor as real == r / step
  {
    DivMul(q, step);
    Sandwich(q, step, x, k as real);
    MulLe(0.0, k as real, step);
    FloorDiv(k as real * step, step, k);
  }

  lemma Sandwich(q: real, step: real, x: real, kr: real)
    requires step > 0.0 && x * step == q && kr <= x < kr + 1.0
    ensures kr * step <= q < kr * step + step
  {
    MulLe(kr, x, step);
    var next := kr + 1.0;
    MulStrict(x, next, step);
    NextMultiple(kr, step);
    assert q < next * step;
  }

  lemma NextMultiple(kr: real, step: real)
    ensures (kr + 1.0) * step == kr * step + step
  {
  }

  lemma FloorDiv(r: real, step: real, k: int)
    requires step > 0.0 && r == k as real * step
    ensures (r / step).Floor as real == r / step
  {
    assert r / step == k as real;
  }

  lemma DivMul(q: real, b: real)
    requires b != 0.0
    ensures (q / b) * b == q
  {
  }

  lemma MulStrict(a: real, b: real, c: real)
    requires a < b && c > 0.0
    ensures a * c < b * c
  {
  }

  lemma MulLe(a: real, b: real, c: real)
    requires a <= b && c > 0.0
    ensures a * c <= b * c
  {
  }

  lemma DivNonNegative(a: real, b: real)
    requires a >= 0.0 && b > 0.0
    ensures a / b >= 0.0
  {
  }

  /**
   * The flooring done on Decimals: the quotient is quantized to exponent 0,
   * so the product takes the step's exponent.
   */
  function DecStepFloor(q: Dec, step: Dec): (r: Option<Dec>)
    ensures r.Some? ==> r.value.exp == step.exp
  {
    if DecValue(step) == 0.0 then None
    else Some(Dec(TruncToInt(DecValue(q) / DecValue(step)) * step.coef, step.exp))
  }

  lemma DecScale(k: int, c: int, e: int)
    ensures DecValue(Dec(k * c, e)) == k as real * DecValue(Dec(c, e))
  {
    if e >= 0 {
      assert k * c * Pow10(e) == k * (c * Pow10(e));
    } else {
      var p := Pow10(-e) as real;
      assert (k * c) as real / p == k as real * (c as real / p);
    }
  }

  /** The Decimal flooring agrees with the flooring on values. */
  lemma DecStepFloorValue(q: Dec, step: Dec)
    requires DecValue(step) != 0.0
    ensures DecStepFloor(q, step).Some?
    ensures DecValue(DecStepFloor(q, step).value) == StepFloor(DecValue(q), DecValue(step)).value
  {
    var v, w := DecValue(q), DecValue(step);
    var k := TruncToInt(v / w);
    assert DecStepFloor(q, step) == Some(Dec(k * step.coef, step.exp));
    assert StepFloor(v, w).Some?;
    assert StepFloor(v, w).value == TruncToInt(v / w) as real * w;
    DecScale(k, step.coef, step.exp);
  }

  /** `format(d, 'f')`: plain positional notation with exactly the exponent's digits. */
  function FormatFixed(d: Dec): string
  {
    var sign := if d.coef < 0 then "-" else "";
    var digits := NatDigits(if d.coef < 0 then -d.coef else d.coef);
    if d.exp >= 0 then
      (if d.coef == 0 then "0" else sign + digits + Repeat('0', d.exp))
    else
      var n := -d.exp;
      if |digits| > n then sign + digits[..|digits| - n] + "." + digits[|digits| - n..]
      else sign + "0." + Repeat('0', n - |digits|) + digits
  }

  /** `.rstrip('0').rstrip('.')` */
  function StripZeros(s: string): string
  {
    RStripChar(RStripChar(s, '0'), '.')
  }

  /** The quantity (or price) text sent with an order, as written. */
  function QuantityText(d: Dec): string
  {
    StripZeros(FormatFixed(d))
  }

  /** The quantity text an order carries as written: the floored quantity, printed and stripped. */
  function OrderQuantityTextAsWritten(q: Dec, step: Dec): (t: Option<string>)
    ensures t.Some? <==> DecValue(step) != 0.0
  {
    var f := DecStepFloor(q, step);
    if f.None? then None else Some(QuantityText(f.value))
  }

  /**
   * With an integral step such as "1", a quantity of 10 is floored to the
   * Decimal 10 and sent as "1": the zero stripping eats integer digits.
   */
  lemma QuantityTextStripsIntegerZeros()
    ensures DecValue(Dec(10, 0)) == 10.0
    ensures OrderQuantityTextAsWritten(Dec(10, 0), Dec(1, 0)) == Some("1")
    ensures DigitsValue("1") == 1
  {
    assert DecValue(Dec(1, 0)) == 1.0;
    assert DecStepFloor(Dec(10, 0), Dec(1, 0)) == Some(Dec(10, 0));
    assert NatDigits(10) == NatDigits(1) + ['0'];
    assert NatDigits(1) == ['1'];
    assert FormatFixed(Dec(10, 0)) == "10";
    assert RStripChar("10", '0') == RStripChar("1", '0');
    assert RStripChar("1", '0') == "1";
    assert RStripChar("1", '.') == "1";
    assert DigitsValue("1") == DigitsValue("") * 10 + 1;
  }

  /** The intended text: trailing zeros are stripped only after a decimal point. */
  function QuantityTextFixed(d: Dec): string
  {
    var s := FormatFixed(d);
    if '.' in s then StripZeros(s) else s
  }

  lemma {:induction false} RepeatSnoc(c: char, k: nat)
    requires k > 0
    ensures Repeat(c, k) == Repeat(c, k - 1) + [c]
  {
    if k > 1 {
      RepeatSnoc(c, k - 1);
    }
  }

  lemma ShiftByTen(v: nat, k: nat)
    requires k > 0
    ensures v * Pow10(k - 1) * 10 == v * Pow10(k)
  {
    assert Pow10(k) == 10 * Pow10(k - 1);
  }

  lemma {:induction false} AppendZerosValue(s: string, k: nat)
    requires AllDigits(s)
    ensures AllDigits(s + Repeat('0', k))
    ensures DigitsValue(s + Repeat('0', k)) == DigitsValue(s) * Pow10(k)
  {
    if k > 0 {
      AppendZerosValue(s, k - 1);
      RepeatSnoc('0', k);
      var shorter := s + Repeat('0', k - 1);
      var t := s + Repeat('0', k);
      assert t == shorter + ['0'];
      assert t[..|t| - 1] == shorter;
      assert DigitsValue(t) == DigitsValue(shorter) * 10;
      ShiftByTen(DigitsValue(s), k);
    } else {
      assert s + Repeat('0', k) == s;
    }
  }

  /**
   * The intended text of a positive integral Decimal is its full digit
   * string, which denotes the Decimal's value.
   */
  lemma QuantityTextFixedIntegral(d: Dec)
    requires d.exp >= 0 && d.coef > 0
    ensures AllDigits(QuantityTextFixed(d))
    ensures DigitsValue(QuantityTextFixed(d)) as real == DecValue(d)
  {
    var digits := NatDigits(d.coef);
    var s := FormatFixed(d);
    assert s == digits + Repeat('0', d.exp);
    AppendZerosValue(digits, d.exp);
    NatDigitsValue(d.coef);
    assert '.' !in s by {
      assert AllDigits(s);
    }
  }

  /** The quantity text an order carries: the floored quantity, printed, with fractional zeros stripped. */
  function OrderQuantityText(q: Dec, step: Dec): (t: Option<string>)
    ensures t.Some? <==> DecValue(step) != 0.0
  {
    var f := DecStepFloor(q, step);
    if f.None? then None else Some(QuantityTextFixed(f.value))
  }

  /**
   * The order text of a positive integral floored quantity is a digit
   * string denoting exactly that quantity; a quantity of 10 on step "1"
   * is sent as "10".
   */
  lemma OrderQuantityTextIntegral(q: Dec, step: Dec)
    requires DecValue(step) != 0.0 && step.exp >= 0
    requires DecStepFloor(q, step).Some? && DecStepFloor(q, step).value.coef > 0
    ensures OrderQuantityText(q, step).Some?
    ensures DigitsValue(OrderQuantityText(q, step).value) as real == DecValue(DecStepFloor(q, step).value)
  {
    var f := DecStepFloor(q, step).value;
    assert f.exp == step.exp;
    QuantityTextFixedIntegral(f);
  }

  /** For fractional Decimals the intended text and the text as written coincide. */
  lemma QuantityTextFixedFractional(d: Dec)
    requires d.exp < 0
    ensures QuantityTextFixed(d) == QuantityText(d)
  {
    var sign := if d.coef < 0 then "-" else "";
    var digits := NatDigits(if d.coef < 0 then -d.coef else d.coef);
    var n := -d.exp;
    var s := FormatFixed(d);
    if |digits| > n {
      assert s == sign + digits[..|digits| - n] + "." + digits[|digits| - n..];
      assert s[|sign| + |digits| - n] == '.';
    } else {
      assert s == sign + "0." + Repeat('0', n - |digits|) + digits;
      assert s[|sign| + 1] == '.';
    }
  }

  /**
   * When the text has a single decimal point, stripping removes only the
   * fractional zeros and the point itself: the integer part survives.
   */
  lemma StripZerosKeepsIntegerPart(s: string, i: int)
    requires 0 <= i < |s| && s[i] == '.'
    requires forall j :: 0 <= j < |s| && s[j] == '.' ==> j == i
    ensures |StripZeros(s)| >= i && StripZeros(s) == s[..|StripZeros(s)|]
    ensures forall j :: |StripZeros(s)| <= j < |s| ==> s[j] == '0' || j == i
  {
    var r1 := RStripChar(s, '0');
    assert |r1| > i;
    var r2 := RStripChar(r1, '.');
    forall j | |r2| <= j < |r1|
      ensures r1[j] == '.' && j == i
    {
      assert s[j] == r1[j];
    }
    if |r1| == i + 1 {
      assert r2 == RStripChar(r1[..i], '.');
      if i > 0 {
        assert r1[..i][i - 1] == s[i - 1] != '.';
      }
    } else {
      assert r1[|r1| - 1] == s[|r1| - 1] != '.';
    }
    assert r2 == s[..|r2|];
  }

  // ---------------------------------------------------------------------
  // Open positions on the exchange
  // ---------------------------------------------------------------------

  /** One row of the position-risk reply, with defaults already applied. */
  datatype RawPosition = RawPosition(symbol: string, positionSide: string, positionAmt: real,
                                     entryPrice: real, markPrice: real, unrealizedProfit: real,
                                     leverage: int, updateTime: int)

  /** An open position as the client reports it. */
  datatype ExchangePosition = ExchangePosition(symbol: string, side: Side, positionSide: string,
                                               amount: real, entryPrice: real, markPrice: real,
                                               unrealizedProfit: real, leverage: int, updateTime: int)

  function AsExchangePosition(r: RawPosition): ExchangePosition
  {
    ExchangePosition(r.symbol, if r.positionAmt > 0.0 then Buy else Sell, r.positionSide,
                     if r.positionAmt < 0.0 then -r.positionAmt else r.positionAmt,
                     r.entryPrice, r.markPrice, r.unrealizedProfit, r.leverage, r.updateTime)
  }

  /** The rows with a non-zero amount, transformed, in reply order. */
  function OpenPositions(rows: seq<RawPosition>): seq<ExchangePosition>
  {
    if rows == [] then []
    else (if rows[0].positionAmt != 0.0 then [AsExchangePosition(rows[0])] else []) + OpenPositions(rows[1..])
  }

  /**
   * Every reported position has a positive amount and comes from a row
   * with that symbol whose amount has that magnitude, BUY exactly for a
   * positive amount; every row with a non-zero amount is reported.
   */
  lemma {:induction false} OpenPositionsSound(rows: seq<RawPosition>)
    ensures forall p :: p in OpenPositions(rows) ==> p.amount > 0.0 && (p.side == Buy || p.side == Sell)
    ensures forall p :: p in OpenPositions(rows) ==>
      exists r :: r in rows && AsExchangePosition(r) == p && r.positionAmt != 0.0
    ensures forall r :: r in rows && r.positionAmt != 0.0 ==> AsExchangePosition(r) in OpenPositions(rows)
    ensures |OpenPositions(rows)| <= |rows|
  {
    if rows != [] {
      OpenPositionsSound(rows[1..]);
      var head := if rows[0].positionAmt != 0.0 then [AsExchangePosition(rows[0])] else [];
      assert OpenPositions(rows) == head + OpenPositions(rows[1..]);
      forall r | r in rows && r.positionAmt != 0.0
        ensures AsExchangePosition(r) in OpenPositions(rows)
      {
        if r != rows[0] {
          assert r in rows[1..];
        }
      }
    }
  }

  lemma SideFollowsAmount(r: RawPosition)
    requires r.positionAmt != 0.0
    ensures AsExchangePosition(r).side == Buy <==> r.positionAmt > 0.0
    ensures AsExchangePosition(r).amount == if r.positionAmt > 0.0 then r.positionAmt else -r.positionAmt
  {
  }

  /**
   * `get_positions_from_binance`: the open positions of the reply; any
   * failure (no reply) yields the empty list, never None.
   */
  method PositionsFromExchange(reply: Option<seq<RawPosition>>) returns (positions: seq<ExchangePosition>)
    ensures reply.None? ==> positions == []
    ensures reply.Some? ==> positions == OpenPositions(reply.value)
  {
    positions := [];
    if reply.None? {
      return;
    }
    var rows := reply.value;
    var i := |rows|;
    while i > 0
      invariant 0 <= i <= |rows|
      invariant positions == OpenPositions(rows[i..])
    {
      i := i - 1;
      assert rows[i..][1..] == rows[i + 1..];
      if rows[i].positionAmt != 0.0 {
        positions := [AsExchangePosition(rows[i])] + positions;
      }
    }
  }

  // ---------------------------------------------------------------------
  // Symbol information
  // ---------------------------------------------------------------------

  datatype Filter = LotSize(stepSize: Option<Dec>) | PriceFilter(tickSize: Option<Dec>) | OtherFilter

  /** The exchange-information reply: a failure, or the listed symbols with their filters. */
  datatype ExchangeInfo = InfoFailed | Listed(symbols: seq<(string, seq<Filter>)>)

  datatype SymbolInfo = SymbolInfo(stepSize: Dec, tickSize: Dec)

  /** "0.1" and "0.01", the sizes used when the exchange does not give them. */
  const DefaultStep: Dec := Dec(1, -1)
  const DefaultTick: Dec := Dec(1, -2)

  /** The step and tick a filter list sets: the last filter of each kind wins ("1" and "0.01" when its field is missing). */
  function FilterSizes(filters: seq<Filter>): (r: (Option<Dec>, Option<Dec>))
  {
    if filters == [] then (None, None)
    else
      var rest := FilterSizes(filters[..|filters| - 1]);
      match filters[|filters| - 1]
      case LotSize(s) => (Some(if s.Some? then s.value else Dec(1, 0)), rest.1)
      case PriceFilter(t) => (rest.0, Some(if t.Some? then t.value else Dec(1, -2)))
      case OtherFilter => rest
  }

  /** The filters of the first listing for `symbol`, if any. */
  function FiltersOf(listing: seq<(string, seq<Filter>)>, symbol: string): Option<seq<Filter>>
  {
    if listing == [] then None
    else if listing[0].0 == symbol then Some(listing[0].1)
    else FiltersOf(listing[1..], symbol)
  }

  /** What `get_symbol_info` computes for an (upper-cased) symbol from a reply. */
  function SymbolInfoFrom(info: ExchangeInfo, symbol: string): SymbolInfo
  {
    if info.InfoFailed? then SymbolInfo(DefaultStep, DefaultTick)
    else
      var filters := FiltersOf(info.symbols, symbol);
      var sizes := if filters.None? then (None, None) else FilterSizes(filters.value);
      SymbolInfo(if sizes.0.Some? then sizes.0.value else DefaultStep,
                 if sizes.1.Some? then sizes.1.value else DefaultTick)
  }

  /** A failed reply, an unlisted symbol, or a listing without filters gives the defaults 0.1 and 0.01. */
  lemma SymbolInfoDefaults(info: ExchangeInfo, symbol: string)
    requires info.InfoFailed? || FiltersOf(info.symbols, symbol).None? || FiltersOf(info.symbols, symbol) == Some([])
    ensures SymbolInfoFrom(info, symbol) == SymbolInfo(Dec(1, -1), Dec(1, -2))
  {
  }

  /** A LOT_SIZE filter that carries a step size decides the step, when it is the last one. */
  lemma {:induction false} SymbolInfoUsesLastLotSize(listing: seq<(string, seq<Filter>)>, symbol: string,
                                                    before: seq<Filter>, step: Dec, after: seq<Filter>)
    requires FiltersOf(listing, symbol) == Some(before + [LotSize(Some(step))] + after)
    requires forall f :: f in after ==> !f.LotSize?
    ensures SymbolInfoFrom(Listed(listing), symbol).stepSize == step
  {
    LastLotSizeWins(before, step, after);
  }

  lemma {:induction false} LastLotSizeWins(before: seq<Filter>, step: Dec, after: seq<Filter>)
    requires forall f :: f in after ==> !f.LotSize?
    ensures FilterSizes(before + [LotSize(Some(step))] + after).0 == Some(step)
    decreases |after|
  {
    var all := before + [LotSize(Some(step))] + after;
    if after == [] {
      assert all[..|all| - 1] == before;
    } else {
      var shorter := after[..|after| - 1];
      assert all[..|all| - 1] == before + [LotSize(Some(step))] + shorter;
      assert after[|after| - 1] in after;
      LastLotSizeWins(before, step, shorter);
    }
  }

  // ---------------------------------------------------------------------
  // Class-level caches of the client
  // ---------------------------------------------------------------------

  /** One item of the all-symbols premium-index reply; a missing markPrice reads as "0". */
  datatype PriceItem = PriceItem(symbol: string, markPrice: Num)

  /** The prices `get_all_mark_prices` takes from a list reply: items with non-empty symbol and price text. */
  function PricesFromItems(items: seq<PriceItem>): map<string, real>
  {
    if items == [] then map[]
    else
      var last := items[|items| - 1];
      var rest := PricesFromItems(items[..|items| - 1]);
      if last.symbol != "" && last.markPrice.text != "" then rest[last.symbol := last.markPrice.value] else rest
  }

  /** The batch result for more than five symbols: every requested symbol, 0 where the map has none. */
  function BatchFromAll(symbols: seq<string>, all: map<string, real>): (m: map<string, real>)
    ensures forall s :: s in m <==> s in symbols
  {
    map s | s in symbols :: if s in all then all[s] else 0.0
  }

  lemma BatchFromAllDefaultsToZero(symbols: seq<string>, all: map<string, real>, s: string)
    requires s in symbols && s !in all
    ensures BatchFromAll(symbols, all)[s] == 0.0
  {
  }

  class ExchangeCaches {
    /** symbol -> (price, time in ms) */
    var priceCache: map<string, (real, int)>
    /** the single "all" entry: (prices, time in ms) */
    var allPrices: Option<(map<string, real>, int)>
    /** balance kind -> (value, time in ms) */
    var balanceCache: map<string, (real, int)>
    var symbolInfo: map<string, SymbolInfo>

    constructor ()
      ensures priceCache == map[] && allPrices == None && balanceCache == map[] && symbolInfo == map[]
    {
      priceCache := map[];
      allPrices := None;
      balanceCache := map[];
      symbolInfo := map[];
    }

    /** `clear_balance_cache`: None empties the cache, a kind removes only that key. */
    method ClearBalanceCache(kind: Option<string>)
      modifies this
      ensures kind.None? ==> balanceCache == map[]
      ensures kind.Some? ==> balanceCache == old(balanceCache) - {kind.value}
      ensures priceCache == old(priceCache) && allPrices == old(allPrices) && symbolInfo == old(symbolInfo)
    {
      if kind.None? {
        balanceCache := map[];
      } else if kind.value in balanceCache {
        balanceCache := balanceCache - {kind.value};
      }
    }

    /** `clear_price_cache`: None empties both price caches, a symbol removes only its per-symbol entry. */
    method ClearPriceCache(symbol: Option<string>)
      modifies this
      ensures symbol.None? ==> priceCache == map[] && allPrices == None
      ensures symbol.Some? ==> priceCache == old(priceCache) - {symbol.value} && allPrices == old(allPrices)
      ensures balanceCache == old(balanceCache) && symbolInfo == old(symbolInfo)
    {
      if symbol.None? {
        priceCache := map[];
        allPrices := None;
      } else if symbol.value in priceCache {
        priceCache := priceCache - {symbol.value};
      }
    }

    /**
     * `get_symbol_info`: upper-cases the symbol, answers from the cache when
     * it can, and otherwise caches and returns what the reply gives, with
     * the defaults filled in.
     */
    method GetSymbolInfo(symbol: string, reply: ExchangeInfo) returns (info: SymbolInfo)
      modifies this
      ensures Upper(symbol) in old(symbolInfo) ==> info == old(symbolInfo)[Upper(symbol)] && symbolInfo == old(symbolInfo)
      ensures Upper(symbol) !in old(symbolInfo) ==>
        info == SymbolInfoFrom(reply, Upper(symbol)) && symbolInfo == old(symbolInfo)[Upper(symbol) := info]
      ensures priceCache == old(priceCache) && allPrices == old(allPrices) && balanceCache == old(balanceCache)
    {
      var sym := Upper(symbol);
      if sym in symbolInfo {
        return symbolInfo[sym];
      }
      if reply.InfoFailed? {
        info := SymbolInfo(DefaultStep, DefaultTick);
        symbolInfo := symbolInfo[sym := info];
        return;
      }
      var filters := FiltersOf(reply.symbols, sym);
      var step: Option<Dec> := None;
      var tick: Option<Dec> := None;
      if filters.Some? {
        var fs := filters.value;
        var i := 0;
        while i < |fs|
          invariant 0 <= i <= |fs|
          invariant (step, tick) == FilterSizes(fs[..i])
        {
          assert fs[..i + 1][..i] == fs[..i];
          match fs[i] {
            case LotSize(s) => step := Some(if s.Some? then s.value else Dec(1, 0));
            case PriceFilter(t) => tick := Some(if t.Some? then t.value else Dec(1, -2));
            case OtherFilter =>
          }
          i := i + 1;
        }
        assert fs[..|fs|] == fs;
      }
      info := SymbolInfo(if step.Some? then step.value else DefaultStep, if tick.Some? then tick.value else DefaultTick);
      symbolInfo := symbolInfo[sym := info];
    }

    /**
     * `get_mark_price`: the WebSocket price when enabled and fresh, else
     * the HTTP cache entry younger than the TTL, else the REST reply, which
     * is cached; a failed REST call gives None.
     */
    method GetMarkPrice(symbol: string, now: int, wsEnabled: bool, feed: PriceFeed.MarkPriceStream,
                        ttlMs: int, rest: Option<real>) returns (price: Option<real>)
      requires feed.Valid()
      modifies this, feed
      ensures feed.Valid()
      ensures wsEnabled && old(feed.FreshPrice(symbol, now)).Some? ==>
        price == old(feed.FreshPrice(symbol, now)) && priceCache == old(priceCache)
      ensures (!wsEnabled || old(feed.FreshPrice(symbol, now)).None?) ==>
        (if Upper(symbol) in old(priceCache) && now - old(priceCache)[Upper(symbol)].1 < ttlMs
         then price == Some(old(priceCache)[Upper(symbol)].0) && priceCache == old(priceCache)
         else (price == rest
               && priceCache == (if rest.Some? then old(priceCache)[Upper(symbol) := (rest.value, now)] else old(priceCache))))
      ensures !wsEnabled ==> feed.subscribed == old(feed.subscribed) && feed.cache == old(feed.cache)
      ensures wsEnabled && old(feed.FreshPrice(symbol, now)).None? && old(feed.running) ==>
        feed.subscribed == old(feed.subscribed) + {Upper(symbol)}
      ensures wsEnabled && (old(feed.FreshPrice(symbol, now)).Some? || !old(feed.running)) ==>
        feed.subscribed == old(feed.subscribed)
      ensures feed.cache == old(feed.cache) && feed.running == old(feed.running)
      ensures allPrices == old(allPrices) && balanceCache == old(balanceCache) && symbolInfo == old(symbolInfo)
    {
      var sym := Upper(symbol);
      UpperIdempotent(symbol);
      if wsEnabled {
        var p := feed.GetPrice(sym, now);
        if p.Some? {
          return p;
        }
      }
      if sym in priceCache && now - priceCache[sym].1 < ttlMs {
        return Some(priceCache[sym].0);
      }
      price := rest;
      if rest.Some? {
        priceCache := priceCache[sym := (rest.value, now)];
      }
    }

    /**
     * `get_all_mark_prices`: the "all" entry while younger than the TTL,
     * else the prices of the reply, which refresh both caches; a failed
     * reply gives the empty map.
     */
    method GetAllMarkPrices(now: int, ttlMs: int, reply: Option<seq<PriceItem>>) returns (prices: map<string, real>)
      modifies this
      ensures old(allPrices).Some? && now - old(allPrices).value.1 < ttlMs ==>
        prices == old(allPrices).value.0 && priceCache == old(priceCache) && allPrices == old(allPrices)
      ensures !(old(allPrices).Some? && now - old(allPrices).value.1 < ttlMs) && reply.None? ==>
        prices == map[] && priceCache == old(priceCache) && allPrices == old(allPrices)
      ensures !(old(allPrices).Some? && now - old(allPrices).value.1 < ttlMs) && reply.Some? ==>
        && prices == PricesFromItems(reply.value)
        && allPrices == Some((prices, now))
        && (forall s :: s in priceCache <==> s in old(priceCache) || s in prices)
        && (forall s :: s in prices ==> priceCache[s] == (prices[s], now))
        && (forall s :: s in old(priceCache) && s !in prices ==> priceCache[s] == old(priceCache)[s])
      ensures balanceCache == old(balanceCache) && symbolInfo == old(symbolInfo)
    {
      if allPrices.Some? && now - allPrices.value.1 < ttlMs {
        return allPrices.value.0;
      }
      if reply.None? {
        return map[];
      }
      prices := PricesFromItems(reply.value);
      allPrices := Some((prices, now));
      priceCache := map s | s in priceCache.Keys + prices.Keys ::
        if s in prices then (prices[s], now) else priceCache[s];
    }

    /**
     * `get_mark_prices_batch`: {} for no symbols; for more than five, every
     * requested symbol from the all-prices map with 0 for the missing; for
     * up to five, one lookup per symbol keeping only non-zero prices.
     */
    method GetMarkPricesBatch(symbols: seq<string>, now: int, wsEnabled: bool, feed: PriceFeed.MarkPriceStream,
                              ttlMs: int, allReply: Option<seq<PriceItem>>, rest: string -> Option<real>)
      returns (result: map<string, real>)
      requires feed.Valid()
      modifies this, feed
      ensures feed.Valid()
      ensures symbols == [] ==> result == map[]
      ensures |symbols| > 5 ==> result.Keys == set s | s in symbols
      ensures |symbols| > 5 ==> result == BatchFromAll(symbols,
        if old(allPrices).Some? && now - old(allPrices).value.1 < ttlMs then old(allPrices).value.0
        else if allReply.Some? then PricesFromItems(allReply.value) else map[])
      ensures |symbols| <= 5 ==> result.Keys <= set s | s in symbols
      ensures |symbols| <= 5 ==> forall s :: s in result ==> result[s] != 0.0
    {
      if symbols == [] {
        return map[];
      }
      if |symbols| > 5 {
        var all := GetAllMarkPrices(now, ttlMs, allReply);
        result := BatchFromAll(symbols, all);
        return;
      }
      result := map[];
      var i := 0;
      while i < |symbols|
        invariant 0 <= i <= |symbols|
        invariant feed.Valid()
        invariant result.Keys <= set s | s in symbols[..i]
        invariant forall s :: s in result ==> result[s] != 0.0
      {
        var p := GetMarkPrice(symbols[i], now, wsEnabled, feed, ttlMs, rest(Upper(symbols[i])));
        if p.Some? && p.value != 0.0 {
          result := result[symbols[i] := p.value];
        }
        i := i + 1;
      }
    }
  }

  // ---------------------------------------------------------------------
  // Balance formulas
  // ---------------------------------------------------------------------

  datatype MarginAsset = MarginAsset(asset: string, free: real, locked: real, borrowed: real, interest: real)

  datatype WalletAsset = WalletAsset(asset: string, free: real, locked: real, freeze: real,
                                     withdrawing: real, ipoable: real)

  /** Margin account: net USDT of the first USDT item (free + locked - borrowed - interest), 0 without one. */
  function MarginNet(assets: seq<MarginAsset>): real
  {
    if assets == [] then 0.0
    else if assets[0].asset == "USDT" then assets[0].free + assets[0].locked - assets[0].borrowed - assets[0].interest
    else MarginNet(assets[1..])
  }

  /** Funding wallet: free + locked + freeze + ipoable of the first USDT item, 0 without one. */
  function WalletTotal(assets: seq<WalletAsset>): real
  {
    if assets == [] then 0.0
    else if assets[0].asset == "USDT" then assets[0].free + assets[0].locked + assets[0].freeze + assets[0].ipoable
    else WalletTotal(assets[1..])
  }

  /** Only the first USDT item counts towards the margin net balance. */
  lemma {:induction false} MarginNetFirstUsdt(assets: seq<MarginAsset>, i: int)
    requires 0 <= i < |assets| && assets[i].asset == "USDT"
    requires forall j :: 0 <= j < i ==> assets[j].asset != "USDT"
    ensures MarginNet(assets) == assets[i].free + assets[i].locked - assets[i].borrowed - assets[i].interest
  {
    if i > 0 {
      MarginNetFirstUsdt(assets[1..], i - 1);
    }
  }

  /** The amount being withdrawn never counts towards the wallet total. */
  lemma {:induction false} WalletIgnoresWithdrawing(assets: seq<WalletAsset>, other: seq<WalletAsset>)
    requires |other| == |assets|
    requires forall j :: 0 <= j < |assets| ==> other[j] == assets[j].(withdrawing := other[j].withdrawing)
    ensures WalletTotal(other) == WalletTotal(assets)
  {
    if assets != [] {
      WalletIgnoresWithdrawing(assets[1..], other[1..]);
    }
  }
}
