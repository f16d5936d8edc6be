/**
 * The `KEY=value` line format of the `.env` file as the settings route
 * reads and writes it, and the fact that every line it writes reads back
 * as the key and value written.
 */
module EnvLines {
  import opened Common

  /** A key `KEY=value` lines can carry and read back: no surrounding space, no `=`, no comment mark. */
  predicate CleanKey(k: string)
  {
    k != [] && !IsSpace(k[0]) && !IsSpace(k[|k| - 1]) && k[0] != '#' && '=' !in k
  }

  /** Index of the first `c` in `s`. */
  function IndexOf(s: string, c: char): (i: nat)
    requires c in s
    ensures i < |s| && s[i] == c && c !in s[..i]
  {
    if s[0] == c then 0
    else
      var j := IndexOf(s[1..], c);
      assert s[..j + 1] == [s[0]] + s[1..][..j];
      j + 1
  }

  /** The stripped text before and after position `cut` of `s`, as `s.split("=", 1)` and `strip()` give them. */
  function SplitAt(s: string, cut: nat): (string, string)
    requires cut < |s|
  {
    (Strip(s[..cut]), Strip(s[cut + 1..]))
  }

  /**
   * How the route reads a `.env` line: the stripped text before and after
   * the first `=`, or None for blank lines, comments and lines without `=`.
   */
  function EnvLine(line: string): Option<(string, string)>
  {
    var s := Strip(line);
    if s != [] && s[0] != '#' && '=' in s then Some(SplitAt(s, IndexOf(s, '='))) else None
  }

  /** A reader of `.env` lines; the file functions of the settings route hold for any that reads back what the route writes. */
  type LineParser = string -> Option<(string, string)>

  /** The line the route writes for a key. */
  function SettingText(k: string, v: string): string
  {
    (k + "=") + (v + "\n")
  }

  ghost predicate ReadsBack(parse: LineParser)
  {
    forall k, v :: CleanKey(k) && Strip(v) == v ==> parse(SettingText(k, v)) == Some((k, v))
  }

  lemma StripLeftSetting(k: string, v: string)
    requires CleanKey(k)
    ensures StripLeft(SettingText(k, v)) == SettingText(k, v)
  {
    var line := SettingText(k, v);
    assert line[0] == k[0];
  }

  lemma StripRightSetting(k: string, v: string)
    requires Strip(v) == v
    ensures StripRight(SettingText(k, v)) == (k + "=") + v
  {
    var a := k + "=";
    assert a != [] && a[|a| - 1] == '=';
    StripNewline(v);
    StripRightBehind(a, v + "\n", v);
  }

  lemma StripRightBehind(a: string, b: string, v: string)
    requires a != [] && !IsSpace(a[|a| - 1]) && StripRight(b) == v
    ensures StripRight(a + b) == a + v
  {
    StripRightAfter(a, b);
  }

  lemma StripSetting(k: string, v: string)
    requires CleanKey(k) && Strip(v) == v
    ensures Strip(SettingText(k, v)) == (k + "=") + v
  {
    StripLeftSetting(k, v);
    StripRightSetting(k, v);
  }

  lemma KeyStripped(k: string)
    requires CleanKey(k)
    ensures Strip(k) == k
  {
  }

  lemma StripNewline(v: string)
    requires Strip(v) == v
    ensures StripRight(v + "\n") == v
  {
    assert (v + "\n")[..|v + "\n"| - 1] == v;
    StrippedEnds(v);
  }

  lemma IndexAfterKey(k: string, v: string)
    requires '=' !in k
    ensures '=' in (k + "=") + v && IndexOf((k + "=") + v, '=') == |k|
  {
    var s := (k + "=") + v;
    assert s[|k|] == '=';
    assert s[..|k|] == k;
  }

  /** A line the route writes reads back as its key and value. */
  lemma SettingLine(k: string, v: string)
    requires CleanKey(k) && Strip(v) == v
    ensures EnvLine(SettingText(k, v)) == Some((k, v))
  {
    var s := (k + "=") + v;
    StripSetting(k, v);
    IndexAfterKey(k, v);
    assert s[0] == k[0];
    KeyStripped(k);
    PartsAroundKey(k, v);
    SplitAtParts(s, |k|, k, v);
  }

  lemma PartsAroundKey(k: string, v: string)
    ensures |k| < |(k + "=") + v|
    ensures ((k + "=") + v)[..|k|] == k && ((k + "=") + v)[|k| + 1..] == v
  {
  }

  lemma SplitAtParts(s: string, cut: nat, a: string, b: string)
    requires cut < |s| && s[..cut] == a && s[cut + 1..] == b && Strip(a) == a && Strip(b) == b
    ensures SplitAt(s, cut) == (a, b)
  {
  }

  lemma EnvLineReadsBack()
    ensures ReadsBack(EnvLine)
  {
    forall k, v | CleanKey(k) && Strip(v) == v
      ensures EnvLine(SettingText(k, v)) == Some((k, v))
    {
      SettingLine(k, v);
    }
  }

  // ---------------------------------------------------------------------
  // The file's text and its lines
  // ---------------------------------------------------------------------

  predicate EndsWithNewline(l: string)
  {
    l != [] && l[|l| - 1] == '\n'
  }

  /** A complete line: one line break, at its end. */
  predicate IsLine(l: string)
  {
    EndsWithNewline(l) && '\n' !in l[..|l| - 1]
  }

  /** A last line without a line break. */
  predicate IsOpenLine(l: string)
  {
    l != [] && '\n' !in l
  }

  /** Lines as `readlines` gives them: complete lines, the last one possibly open. */
  predicate LineShaped(lines: seq<string>)
  {
    forall i :: 0 <= i < |lines| ==> IsLine(lines[i]) || (i == |lines| - 1 && IsOpenLine(lines[i]))
  }

  predicate AllComplete(lines: seq<string>)
  {
    forall i :: 0 <= i < |lines| ==> IsLine(lines[i])
  }

  /** `writelines`: the lines written one after the other, with no separator added. */
  function Joined(lines: seq<string>): string
  {
    if lines == [] then [] else lines[0] + Joined(lines[1..])
  }

  /** The length of the first line of a text: through its first line break, or the whole text. */
  function FirstLineLength(text: string): (n: nat)
    requires text != []
    ensures 0 < n <= |text|
  {
    if '\n' in text then IndexOf(text, '\n') + 1 else |text|
  }

  /** `readlines`: the text cut after every line break. */
  function ReadLines(text: string): seq<string>
    decreases |text|
  {
    if text == [] then []
    else
      var n := FirstLineLength(text);
      [text[..n]] + ReadLines(text[n..])
  }

  lemma FirstLineShape(text: string)
    requires text != []
    ensures var n := FirstLineLength(text);
      IsLine(text[..n]) || (n == |text| && IsOpenLine(text))
  {
    var n := FirstLineLength(text);
    if '\n' in text {
      assert text[..n][..n - 1] == text[..n - 1];
    }
  }

  /** `readlines` gives lines of the `readlines` shape, and writing them back gives the text. */
  lemma {:induction false} ReadLinesSpec(text: string)
    ensures LineShaped(ReadLines(text)) && Joined(ReadLines(text)) == text
    decreases |text|
  {
    if text != [] {
      var n := FirstLineLength(text);
      FirstLineShape(text);
      ReadLinesSpec(text[n..]);
      var lines := ReadLines(text);
      var rest := ReadLines(text[n..]);
      assert lines == [text[..n]] + rest;
      assert lines[1..] == rest;
      assert text[..n] + text[n..] == text;
      forall i | 0 <= i < |lines| ensures IsLine(lines[i]) || (i == |lines| - 1 && IsOpenLine(lines[i])) {
        if i > 0 {
          assert lines[i] == rest[i - 1];
        }
      }
    }
  }

  /** A complete line is the whole first line of any text it begins. */
  lemma FirstLineOf(l: string, rest: string)
    requires IsLine(l)
    ensures FirstLineLength(l + rest) == |l|
  {
    var s := l + rest;
    assert s[|l| - 1] == '\n';
    assert s[..|l| - 1] == l[..|l| - 1];
    var i := IndexOf(s, '\n');
    assert i <= |l| - 1 by {
      assert s[..|l|] == l;
    }
  }

  /** Lines of the `readlines` shape, written and read back, are the same lines. */
  lemma {:induction false} ReadLinesJoined(lines: seq<string>)
    requires LineShaped(lines)
    ensures ReadLines(Joined(lines)) == lines
  {
    if lines != [] {
      var l := lines[0];
      var rest := lines[1..];
      assert Joined(lines) == l + Joined(rest);
      if IsLine(l) {
        FirstLineOf(l, Joined(rest));
        assert (l + Joined(rest))[..|l|] == l && (l + Joined(rest))[|l|..] == Joined(rest);
        assert LineShaped(rest) by {
          forall i | 0 <= i < |rest| ensures IsLine(rest[i]) || (i == |rest| - 1 && IsOpenLine(rest[i])) {
            assert rest[i] == lines[i + 1];
          }
        }
        ReadLinesJoined(rest);
      } else {
        assert rest == [] && Joined(rest) == [];
        assert l + [] == l;
      }
    }
  }

  lemma {:induction false} JoinedAppend(a: seq<string>, b: seq<string>)
    ensures Joined(a + b) == Joined(a) + Joined(b)
  {
    if a == [] {
      assert a + b == b;
    } else {
      assert (a + b)[0] == a[0] && (a + b)[1..] == a[1..] + b;
      JoinedAppend(a[1..], b);
    }
  }

  /** The lines with a line break added to a last line that has none. */
  function Terminated(lines: seq<string>): seq<string>
  {
    if lines != [] && !EndsWithNewline(lines[|lines| - 1]) then lines[..|lines| - 1] + [lines[|lines| - 1] + "\n"]
    else lines
  }

  /** Terminating lines of the `readlines` shape makes every line complete and changes nothing else. */
  lemma TerminatedSpec(lines: seq<string>)
    requires LineShaped(lines)
    ensures AllComplete(Terminated(lines)) && |Terminated(lines)| == |lines|
    ensures forall i :: 0 <= i < |lines| - 1 ==> Terminated(lines)[i] == lines[i]
    ensures lines != [] ==>
      Terminated(lines)[|lines| - 1] == (if EndsWithNewline(lines[|lines| - 1]) then lines[|lines| - 1] else lines[|lines| - 1] + "\n")
  {
    if lines != [] && !EndsWithNewline(lines[|lines| - 1]) {
      var l := lines[|lines| - 1];
      assert IsOpenLine(l);
      assert (l + "\n")[..|l|] == l;
    }
  }

  /** A text that is empty or ends with a line break has no open last line. */
  lemma TerminatedText(text: string)
    requires text == [] || text[|text| - 1] == '\n'
    ensures Terminated(ReadLines(text)) == ReadLines(text)
  {
    var lines := ReadLines(text);
    ReadLinesSpec(text);
    if lines != [] {
      var k := |lines| - 1;
      assert lines == lines[..k] + [lines[k]];
      JoinedAppend(lines[..k], [lines[k]]);
      assert Joined([lines[k]]) == lines[k] + [];
      assert IsLine(lines[k]) || IsOpenLine(lines[k]);
    }
  }

  /** Left-stripping a text with a line break added. */
  lemma {:induction false} StripLeftNewline(l: string)
    ensures StripLeft(l + "\n") == if StripLeft(l) == [] then [] else StripLeft(l) + "\n"
  {
    if l == [] {
      assert StripLeft("\n") == StripLeft("\n"[1..]);
    } else if IsSpace(l[0]) {
      assert (l + "\n")[1..] == l[1..] + "\n";
      StripLeftNewline(l[1..]);
    }
  }

  /** A line break at the end is stripped away. */
  lemma StripWithNewline(l: string)
    ensures Strip(l + "\n") == Strip(l)
  {
    var s := StripLeft(l);
    StripLeftNewline(l);
    if s != [] {
      assert (s + "\n")[..|s|] == s;
    }
  }

  /** The route reads a line the same with a line break added. */
  lemma EnvLineNewline(l: string)
    ensures EnvLine(l + "\n") == EnvLine(l)
  {
    StripWithNewline(l);
  }
}
