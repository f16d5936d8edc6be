/**
 * Shared vocabulary of the bot: optional values, the error-carrying result
 * the services raise, order sides, and the ASCII string helpers that the
 * services use for symbols (`upper()`, `endswith("USDT")`, `strip()`).
 */
module Common {

  datatype Option<T> = None | Some(value: T)

  /** An operation that either returns a value or raises with a message. */
  datatype Result<T> = Ok(value: T) | Err(error: string)

  /**
   * A numeric JSON field as the exchange sends it: its raw text (whose
   * emptiness is what Python's truthiness tests) and its Decimal value.
   */
  datatype Num = Num(text: string, value: real)

  predicate Truthy(n: Option<Num>) { n.Some? && n.value.text != "" }

  /** Python truthiness of an optional Decimal: present and non-zero. */
  predicate NonZero(x: Option<real>) { x.Some? && x.value != 0.0 }

  /** Order/position side as stored in the database: "BUY", "SELL" or anything else. */
  datatype Side = Buy | Sell | OtherSide

  function SideOf(s: string): (side: Side)
    ensures side == Buy <==> s == "BUY"
    ensures side == Sell <==> s == "SELL"
  {
    if s == "BUY" then Buy else if s == "SELL" then Sell else OtherSide
  }

  predicate IsLower(c: char) { 'a' <= c <= 'z' }

  predicate IsUpperLetter(c: char) { 'A' <= c <= 'Z' }

  predicate IsDigit(c: char) { '0' <= c <= '9' }

  /** Python's `str.upper()`, restricted to ASCII letters. */
  function UpperChar(c: char): char
  {
    if IsLower(c) then (c as int - 32) as char else c
  }

  function Upper(s: string): (u: string)
    ensures |u| == |s|
  {
    if s == [] then [] else [UpperChar(s[0])] + Upper(s[1..])
  }

  /** `upper()` works character by character. */
  lemma {:induction false} UpperChars(s: string)
    ensures forall i :: 0 <= i < |s| ==> Upper(s)[i] == UpperChar(s[i])
  {
    if s != [] {
      UpperChars(s[1..]);
      forall i | 0 < i < |s| ensures Upper(s)[i] == UpperChar(s[i]) {
        assert s[1..][i - 1] == s[i];
      }
    }
  }

  lemma UpperIdempotent(s: string)
    ensures Upper(Upper(s)) == Upper(s)
  {
    assert forall i :: 0 <= i < |s| ==> UpperChar(UpperChar(s[i])) == UpperChar(s[i]);
  }

  /** Python's `str.lower()` on one ASCII character. */
  function LowerChar(c: char): char
  {
    if IsUpperLetter(c) then (c as int + 32) as char else c
  }

  predicate EndsWith(s: string, suffix: string)
  {
    |suffix| <= |s| && s[|s| - |suffix|..] == suffix
  }

  predicate StartsWith(s: string, prefix: string)
  {
    |prefix| <= |s| && s[..|prefix|] == prefix
  }

  predicate OccursAt(s: string, part: string, i: int)
  {
    0 <= i <= |s| - |part| && s[i..i + |part|] == part
  }

  /** Python's `part in s` for strings. */
  predicate Contains(s: string, part: string)
  {
    exists i | 0 <= i <= |s| - |part| :: OccursAt(s, part, i)
  }

  /**
   * Symbol normalisation used by the scheduler and by manual-plan execution:
   * upper-case, then append "USDT" unless it already ends with it.
   */
  function UsdtSymbol(symbol: string): (r: string)
  {
    var u := Upper(symbol);
    if EndsWith(u, "USDT") then u else u + "USDT"
  }

  lemma UsdtSymbolShape(symbol: string)
    ensures EndsWith(UsdtSymbol(symbol), "USDT")
    ensures UsdtSymbol(UsdtSymbol(symbol)) == UsdtSymbol(symbol)
    ensures StartsWith(UsdtSymbol(symbol), Upper(symbol))
  {
    var u := Upper(symbol);
    UpperIdempotent(symbol);
    if !EndsWith(u, "USDT") {
      AppendUsdtShape(u);
    }
  }

  /** Appending "USDT" to an upper-cased text gives an upper-cased text ending in it. */
  lemma AppendUsdtShape(u: string)
    requires Upper(u) == u
    ensures EndsWith(u + "USDT", "USDT") && StartsWith(u + "USDT", u)
    ensures Upper(u + "USDT") == u + "USDT"
  {
    var r := u + "USDT";
    assert r[|r| - 4..] == "USDT";
    assert r[..|u|] == u;
    UpperAppend(u, "USDT");
    UpperUsdt();
  }

  lemma UpperUsdt()
    ensures Upper("USDT") == "USDT"
  {
    var t := Upper("USDT");
    assert t[0] == 'U' && t[1] == 'S' && t[2] == 'D' && t[3] == 'T';
  }

  /** Moving one element across a concatenation, the step of every loop that appends. */
  lemma PushAssoc<T>(a: seq<T>, x: T, b: seq<T>)
    ensures a + ([x] + b) == (a + [x]) + b
  {
  }

  lemma UpperAppend(a: string, b: string)
    ensures Upper(a + b) == Upper(a) + Upper(b)
  {
    UpperChars(a + b);
    UpperChars(a);
    UpperChars(b);
    assert forall i :: |a| <= i < |a + b| ==> (a + b)[i] == b[i - |a|];
  }

  /** Characters Python's `str.strip()` removes (ASCII whitespace). */
  predicate IsSpace(c: char)
  {
    c == ' ' || c == '\t' || c == '\n' || c == '\r' || c == '\U{0B}' || c == '\U{0C}'
  }

  function StripLeft(s: string): (r: string)
    ensures |r| <= |s| && r == s[|s| - |r|..]
    ensures r == [] || !IsSpace(r[0])
  {
    if s != [] && IsSpace(s[0]) then StripLeft(s[1..]) else s
  }

  function StripRight(s: string): (r: string)
    ensures |r| <= |s| && r == s[..|r|]
    ensures r == [] || !IsSpace(r[|r| - 1])
  {
    if s != [] && IsSpace(s[|s| - 1]) then StripRight(s[..|s| - 1]) else s
  }

  /** Python's `str.strip()` with no argument. */
  function Strip(s: string): (r: string)
    ensures r == [] || (!IsSpace(r[0]) && !IsSpace(r[|r| - 1]))
  {
    StripRight(StripLeft(s))
  }

  /** Right-stripping text that follows a non-space character leaves that prefix alone. */
  lemma {:induction false} StripRightAfter(a: string, b: string)
    requires a != [] && !IsSpace(a[|a| - 1])
    ensures StripRight(a + b) == a + StripRight(b)
    decreases |b|
  {
    if b == [] {
      assert a + b == a;
    } else if IsSpace(b[|b| - 1]) {
      assert (a + b)[..|a + b| - 1] == a + b[..|b| - 1];
      StripRightAfter(a, b[..|b| - 1]);
    }
  }

  /** A text that is its own strip has no space at either end. */
  lemma StrippedEnds(s: string)
    requires Strip(s) == s
    ensures StripLeft(s) == s && StripRight(s) == s
  {
  }

  /** `str(n)` of an integer carries no surrounding whitespace. */
  lemma IntTextStripped(n: int)
    ensures Strip(IntText(n)) == IntText(n)
  {
    var t := IntText(n);
    assert !IsSpace(t[0]) && !IsSpace(t[|t| - 1]);
  }

  /** A text with no space at either end is its own strip. */
  lemma StripNonSpaceEnds(s: string)
    requires s == [] || (!IsSpace(s[0]) && !IsSpace(s[|s| - 1]))
    ensures Strip(s) == s
  {
  }

  lemma StripIdempotent(s: string)
    ensures Strip(Strip(s)) == Strip(s)
  {
    StripNonSpaceEnds(Strip(s));
  }

  /** Stripping keeps a contiguous piece of the text, so it adds no character. */
  lemma StripWithin(s: string, c: char)
    requires c !in s
    ensures c !in Strip(s)
  {
    var l := StripLeft(s);
    assert l == s[|s| - |l|..];
    var r := StripRight(l);
    assert r == l[..|r|];
  }

  /** Python's `str.rstrip(c)` for a single character. */
  function RStripChar(s: string, c: char): (r: string)
    ensures |r| <= |s| && r == s[..|r|]
    ensures r == [] || r[|r| - 1] != c
    ensures forall i :: |r| <= i < |s| ==> s[i] == c
  {
    if s != [] && s[|s| - 1] == c then RStripChar(s[..|s| - 1], c) else s
  }

  /** `sep.join(parts)`. */
  function Join(parts: seq<string>, sep: string): string
  {
    if parts == [] then ""
    else if |parts| == 1 then parts[0]
    else parts[0] + sep + Join(parts[1..], sep)
  }

  /** `s.split(c)`: the pieces between occurrences of `c`, at least one. */
  function Split(s: string, c: char): (parts: seq<string>)
    ensures |parts| >= 1
    ensures forall i :: 0 <= i < |parts| ==> c !in parts[i]
  {
    if s == [] then [""]
    else
      var rest := Split(s[1..], c);
      if s[0] == c then [""] + rest else [[s[0]] + rest[0]] + rest[1..]
  }

  /** Joining the pieces of a split with the separator gives the text back. */
  lemma {:induction false} JoinSplit(s: string, c: char)
    ensures Join(Split(s, c), [c]) == s
  {
    if s != [] {
      var rest := Split(s[1..], c);
      JoinSplit(s[1..], c);
      if s[0] == c {
        var parts := [""] + rest;
        assert parts[1..] == rest;
      } else {
        var parts := [[s[0]] + rest[0]] + rest[1..];
        assert parts[1..] == rest[1..];
        if |rest| == 1 {
          assert [s[0]] + rest[0] == s;
        } else {
          assert Join(rest, [c]) == rest[0] + [c] + Join(rest[1..], [c]);
          assert s == [s[0]] + s[1..];
        }
      }
    }
  }

  /** A text without the separator splits into itself. */
  lemma {:induction false} SplitNone(a: string, c: char)
    requires c !in a
    ensures Split(a, c) == [a]
  {
    if a != [] {
      assert c !in a[1..];
      SplitNone(a[1..], c);
      assert [a[0]] + a[1..] == a;
    }
  }

  /** Splitting at a separator after a separator-free prefix. */
  lemma {:induction false} SplitAfter(a: string, b: string, c: char)
    requires c !in a
    ensures Split(a + [c] + b, c) == [a] + Split(b, c)
  {
    if a == [] {
      assert a + [c] + b == [c] + b;
      assert ([c] + b)[1..] == b;
    } else {
      var s := a + [c] + b;
      assert s[0] == a[0] && s[1..] == a[1..] + [c] + b;
      assert c !in a[1..];
      SplitAfter(a[1..], b, c);
      assert [a[0]] + a[1..] == a;
    }
  }

  /** Splitting a join of separator-free pieces gives the pieces back. */
  lemma {:induction false} SplitJoin(parts: seq<string>, c: char)
    requires |parts| >= 1
    requires forall i :: 0 <= i < |parts| ==> c !in parts[i]
    ensures Split(Join(parts, [c]), c) == parts
  {
    if |parts| == 1 {
      SplitNone(parts[0], c);
    } else {
      SplitJoin(parts[1..], c);
      SplitAfter(parts[0], Join(parts[1..], [c]), c);
      assert [parts[0]] + parts[1..] == parts;
    }
  }

  /** Decimal digits of a natural number, as `str(n)` gives them. */
  function NatDigits(n: nat): (s: string)
    ensures |s| >= 1
    ensures forall i :: 0 <= i < |s| ==> IsDigit(s[i])
    decreases n
  {
    if n < 10 then [('0' as int + n) as char] else NatDigits(n / 10) + [('0' as int + n % 10) as char]
  }

  function DigitValue(c: char): nat
    requires IsDigit(c)
  {
    c as int - '0' as int
  }

  predicate AllDigits(s: string)
  {
    forall i :: 0 <= i < |s| ==> IsDigit(s[i])
  }

  /** The number an all-digit text denotes, as `int(s)` reads it. */
  function DigitsValue(s: string): nat
    requires AllDigits(s)
  {
    if s == [] then 0 else DigitsValue(s[..|s| - 1]) * 10 + DigitValue(s[|s| - 1])
  }

  lemma {:induction false} NatDigitsValue(n: nat)
    ensures DigitsValue(NatDigits(n)) == n
    decreases n
  {
    if n >= 10 {
      var s := NatDigits(n);
      assert s[..|s| - 1] == NatDigits(n / 10);
      NatDigitsValue(n / 10);
    }
  }

  function IntText(n: int): string
  {
    if n < 0 then "-" + NatDigits(-n) else NatDigits(n)
  }

  function Pow10(k: nat): (p: nat)
    ensures p >= 1
  {
    if k == 0 then 1 else 10 * Pow10(k - 1)
  }

  function Repeat(c: char, k: nat): (s: string)
    ensures |s| == k && forall i :: 0 <= i < k ==> s[i] == c
  {
    if k == 0 then "" else [c] + Repeat(c, k - 1)
  }
}
