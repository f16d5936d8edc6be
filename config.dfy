/**
 * The two validators of the settings object: `parse_windows`, which turns
 * a comma-separated text of analysis windows into a list, and
 * `_normalize_empty_values`, which turns an empty `smtp_port` into None
 * before type checking. Raw values come from the `.env` file or the
 * process environment.
 */
module Config {
  import opened Common

  /** A raw setting value before validation. */
  datatype Value = Text(s: string) | Items(items: seq<string>) | Number(n: int) | NoValue

  /** The raw input of the settings model: a dictionary, or anything else. */
  datatype RawInput = Dict(entries: map<string, Value>) | NotDict(value: Value)

  // ---------------------------------------------------------------------
  // parse_windows
  // ---------------------------------------------------------------------

  /** The stripped pieces that are not blank, in order. */
  function NonBlank(pieces: seq<string>): (r: seq<string>)
    ensures |r| <= |pieces|
  {
    if pieces == [] then []
    else if Strip(pieces[0]) != [] then [Strip(pieces[0])] + NonBlank(pieces[1..])
    else NonBlank(pieces[1..])
  }

  /** `parse_windows`: a text becomes its comma-separated, stripped, non-empty items; anything else is kept. */
  function ParseWindows(value: Value): (r: Value)
    ensures !value.Text? ==> r == value
    ensures value.Text? ==> r.Items?
  {
    if value.Text? then Items(NonBlank(Split(value.s, ','))) else value
  }

  /** A window name `parse_windows` can carry through a text: non-empty, stripped, without a comma. */
  predicate CleanWindow(w: string)
  {
    w != [] && Strip(w) == w && ',' !in w
  }

  /** Every item `NonBlank` keeps is a clean window when no piece holds a comma. */
  lemma {:induction false} NonBlankClean(pieces: seq<string>)
    requires forall i :: 0 <= i < |pieces| ==> ',' !in pieces[i]
    ensures forall i :: 0 <= i < |NonBlank(pieces)| ==> CleanWindow(NonBlank(pieces)[i])
  {
    if pieces != [] {
      NonBlankClean(pieces[1..]);
      if Strip(pieces[0]) != [] {
        StripIdempotent(pieces[0]);
        StripWithin(pieces[0], ',');
      }
    }
  }

  /** Every parsed window is non-empty, stripped and free of commas. */
  lemma ParsedWindowsClean(text: string)
    ensures var r := ParseWindows(Text(text));
      forall i :: 0 <= i < |r.items| ==> CleanWindow(r.items[i])
  {
    NonBlankClean(Split(text, ','));
  }

  /** Clean pieces all survive `NonBlank` unchanged. */
  lemma {:induction false} NonBlankKeepsClean(ws: seq<string>)
    requires forall i :: 0 <= i < |ws| ==> CleanWindow(ws[i])
    ensures NonBlank(ws) == ws
  {
    if ws != [] {
      NonBlankKeepsClean(ws[1..]);
      assert [ws[0]] + ws[1..] == ws;
    }
  }

  /** Joining clean windows with commas and parsing the text gives the same windows, in the same order. */
  lemma ParseWindowsJoin(ws: seq<string>)
    requires forall i :: 0 <= i < |ws| ==> CleanWindow(ws[i])
    ensures ParseWindows(Text(Join(ws, ","))) == Items(ws)
  {
    if ws == [] {
      assert Split("", ',') == [""];
      assert Strip("") == "";
    } else {
      SplitJoin(ws, ',');
      NonBlankKeepsClean(ws);
    }
  }

  /** Parsing is idempotent: the list it returns is returned unchanged. */
  lemma ParseWindowsIdempotent(value: Value)
    ensures ParseWindows(ParseWindows(value)) == ParseWindows(value)
  {
  }

  // ---------------------------------------------------------------------
  // _normalize_empty_values
  // ---------------------------------------------------------------------

  /** The keys whose empty text means "not set". */
  const EmptyMeansUnset: seq<string> := ["smtp_port"]

  /** The dictionary after the keys of `EmptyMeansUnset` holding "" are set to None. */
  function Normalized(entries: map<string, Value>): map<string, Value>
  {
    map k | k in entries :: if k in EmptyMeansUnset && entries[k] == Text("") then NoValue else entries[k]
  }

  /**
   * `_normalize_empty_values` on any input: anything but a dictionary is
   * returned as it is; a dictionary keeps its keys and every entry except
   * an empty `smtp_port`, which becomes None.
   */
  function NormalizeEmptyValues(input: RawInput): (r: RawInput)
    ensures r.Dict? <==> input.Dict?
    ensures input.NotDict? ==> r == input
    ensures input.Dict? ==>
      && r.entries.Keys == input.entries.Keys
      && (forall k :: k in input.entries && k != "smtp_port" ==> r.entries[k] == input.entries[k])
      && ("smtp_port" in input.entries ==>
            r.entries["smtp_port"] == if input.entries["smtp_port"] == Text("") then NoValue else input.entries["smtp_port"])
  {
    if input.Dict? then Dict(Normalized(input.entries)) else input
  }

  /** Only an empty `smtp_port` changes; normalising twice is normalising once. */
  lemma NormalizedSpec(entries: map<string, Value>)
    ensures var r := Normalized(entries);
      && r.Keys == entries.Keys
      && Normalized(r) == r
      && (forall k :: k in entries && k != "smtp_port" ==> r[k] == entries[k])
      && ("smtp_port" in entries ==> (r["smtp_port"] == NoValue <==> entries["smtp_port"] in {Text(""), NoValue}))
  {
    var r := Normalized(entries);
    assert forall k :: k in EmptyMeansUnset <==> k == "smtp_port";
    assert Normalized(r) == r;
  }

  /** The raw values the validator receives, which it updates in place. */
  class RawValues {
    var entries: map<string, Value>

    constructor (entries: map<string, Value>)
      ensures this.entries == entries
    {
      this.entries := entries;
    }

    /** The loop over `EmptyMeansUnset`: each such key holding "" is set to None. */
    method NormalizeEmpty()
      modifies this
      ensures entries == Normalized(old(entries))
    {
      var i := 0;
      while i < |EmptyMeansUnset|
        invariant 0 <= i <= |EmptyMeansUnset|
        invariant entries.Keys == old(entries).Keys
        invariant forall k :: k in entries ==>
          entries[k] == if k in EmptyMeansUnset[..i] && old(entries)[k] == Text("") then NoValue else old(entries)[k]
      {
        var key := EmptyMeansUnset[i];
        if key in entries && entries[key] == Text("") {
          entries := entries[key := NoValue];
        }
        i := i + 1;
      }
      assert EmptyMeansUnset[..i] == EmptyMeansUnset;
    }
  }
}
