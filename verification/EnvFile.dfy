/**
 The deployment script's environment file: a printer that single-quotes every value and a parser
 that splits the text into lines.  A mapping is its list of entries in insertion order.
 */
module EnvFile {
  import opened Options

  datatype Entry = Entry(key: string, value: string)

  // What a JSON string literal decodes to, if it is one.
  type Json = string -> Option<string>

  // ---- Characters ---------------------------------------------------------

  predicate Boundary(c: char) {
    c in {'\n', '\r', '\U{0b}', '\U{0c}', '\U{1c}', '\U{1d}', '\U{1e}', '\U{85}', '\U{2028}', '\U{2029}'}
  }

  predicate Space(c: char) {
    || Boundary(c)
    || c in {'\t', '\U{1f}', ' ', '\U{a0}', '\U{1680}', '\U{202f}', '\U{205f}', '\U{3000}'}
    || '\U{2000}' <= c <= '\U{200a}'
  }

  predicate KeyStart(c: char) {
    'A' <= c <= 'Z' || 'a' <= c <= 'z' || c == '_'
  }

  predicate ValidKey(key: string) {
    && key != [] && KeyStart(key[0])
    && forall c <- key :: KeyStart(c) || '0' <= c <= '9'
  }

  predicate OneLine(s: string) {
    forall c <- s :: !Boundary(c)
  }

  // ---- Printing -----------------------------------------------------------

  /** A backslash before every single quote. */
  function Escape(s: string): string {
    if s == [] then []
    else if s[0] == '\'' then ['\\', '\''] + Escape(s[1..])
    else [s[0]] + Escape(s[1..])
  }

  predicate Printable(e: Entry) {
    ValidKey(e.key) && forall c <- e.value :: c !in {'\r', '\n', '\0'}
  }

  function Line(e: Entry): string {
    e.key + ['=', '\''] + Escape(e.value) + ['\'']
  }

  function Text(entries: seq<Entry>): string {
    if entries == [] then [] else Line(entries[0]) + ['\n'] + Text(entries[1..])
  }

  method RenderEnv(entries: seq<Entry>) returns (text: Option<string>)
    ensures text.Some? <==> forall e <- entries :: Printable(e)
    ensures text.Some? ==> text.value == Text(entries)
  {
    var out := [];
    for i := 0 to |entries|
      invariant forall j :: 0 <= j < i ==> Printable(entries[j])
      invariant out == Text(entries[..i])
    {
      if !Printable(entries[i]) {
        return None;
      }
      TextPush(entries[..i], entries[i]);
      assert entries[..i + 1] == entries[..i] + [entries[i]];
      out := out + Line(entries[i]) + ['\n'];
    }
    assert entries[..|entries|] == entries;
    text := Some(out);
  }

  lemma {:induction false} TextPush(entries: seq<Entry>, e: Entry)
    ensures Text(entries + [e]) == Text(entries) + Line(e) + ['\n']
  {
    hide Line;
    if entries == [] {
      assert entries + [e] == [e];
      assert Text([e][1..]) == [];
    } else {
      assert (entries + [e])[1..] == entries[1..] + [e];
      TextPush(entries[1..], e);
    }
  }

  // ---- Parsing ------------------------------------------------------------

  function LineEnd(text: string): (n: nat)
    ensures n <= |text| && OneLine(text[..n]) && (n < |text| ==> Boundary(text[n]))
  {
    if text == [] || Boundary(text[0]) then 0
    else
      var n := LineEnd(text[1..]);
      assert text[..1 + n] == [text[0]] + text[1..][..n];
      1 + n
  }

  function SplitLines(text: string): seq<string>
    decreases |text|
  {
    if text == [] then []
    else
      var n := LineEnd(text);
      if n == |text| then [text]
      else
        var skip := if text[n] == '\r' && n + 1 < |text| && text[n + 1] == '\n' then 2 else 1;
        [text[..n]] + SplitLines(text[n + skip..])
  }

  function StripLeft(s: string): string {
    if s != [] && Space(s[0]) then StripLeft(s[1..]) else s
  }

  function StripRight(s: string): string {
    if s != [] && Space(s[|s| - 1]) then StripRight(s[..|s| - 1]) else s
  }

  function Strip(s: string): string { StripRight(StripLeft(s)) }

  /** Where the first equals sign is, or the length. */
  function Separator(s: string): (n: nat)
    ensures n <= |s| && (n < |s| ==> s[n] == '=')
  {
    if s == [] || s[0] == '=' then 0 else 1 + Separator(s[1..])
  }

  /** A backslash-quote pair read as a quote, from left to right. */
  function Unescape(s: string): string {
    if s == [] then []
    else if |s| >= 2 && s[0] == '\\' && s[1] == '\'' then ['\''] + Unescape(s[2..])
    else [s[0]] + Unescape(s[1..])
  }

  function Dollars(s: string): string {
    if |s| >= 2 && s[0] == '$' && s[1] == '$' then ['$'] + Dollars(s[2..])
    else if s == [] then []
    else [s[0]] + Dollars(s[1..])
  }

  function Unquote(json: Json, value: string): Option<string> {
    if value != [] && value[0] == '"' then
      match json(value)
      case Some(s) => Some(Dollars(s))
      case None => None
    else if value != [] && value[0] == '\'' && value[|value| - 1] == '\'' then
      Some(if |value| < 2 then [] else Unescape(value[1..|value| - 1]))
    else Some(value)
  }

  datatype Parsed = Blank | Bad | Good(entry: Entry)

  function ParseLine(json: Json, raw: string): Parsed {
    var line := Strip(raw);
    if line == [] || line[0] == '#' then Blank
    else
      var n := Separator(line);
      var key := Strip(line[..n]);
      if n == |line| || !ValidKey(key) then Bad
      else
        match Unquote(json, Strip(line[n + 1..]))
        case None => Bad
        case Some(value) => Good(Entry(key, value))
  }

  predicate HasKey(entries: seq<Entry>, key: string) {
    exists i :: 0 <= i < |entries| && entries[i].key == key
  }

  function Parse(json: Json, lines: seq<string>, before: seq<Entry>): Option<seq<Entry>> {
    if lines == [] then Some(before)
    else
      match ParseLine(json, lines[0])
      case Blank => Parse(json, lines[1..], before)
      case Bad => None
      case Good(e) => if HasKey(before, e.key) then None else Parse(json, lines[1..], before + [e])
  }

  method ParseEnv(json: Json, text: string) returns (entries: Option<seq<Entry>>)
    ensures entries == Parse(json, SplitLines(text), [])
  {
    var lines := SplitLines(text);
    var values: seq<Entry> := [];
    for i := 0 to |lines|
      invariant Parse(json, lines, []) == Parse(json, lines[i..], values)
    {
      assert lines[i..][0] == lines[i] && lines[i..][1..] == lines[i + 1..];
      match ParseLine(json, lines[i])
      case Blank =>
      case Bad => return None;
      case Good(e) =>
        if HasKey(values, e.key) {
          return None;
        }
        values := values + [e];
    }
    entries := Some(values);
  }

  // ---- Lines --------------------------------------------------------------

  lemma {:induction false} LineEndAfter(a: string, rest: string)
    requires OneLine(a) && (rest == [] || Boundary(rest[0]))
    ensures LineEnd(a + rest) == |a|
  {
    if a == [] {
      assert a + rest == rest;
    } else {
      assert (a + rest)[1..] == a[1..] + rest;
      LineEndAfter(a[1..], rest);
    }
  }

  lemma SplitFirst(a: string, rest: string)
    requires OneLine(a)
    ensures SplitLines(a + ['\n'] + rest) == [a] + SplitLines(rest)
  {
    var text := a + ['\n'] + rest;
    assert text == a + (['\n'] + rest);
    LineEndAfter(a, ['\n'] + rest);
    assert text[..|a|] == a && text[|a| + 1..] == rest;
  }

  lemma {:induction false} EscapeOneLine(s: string)
    ensures OneLine(Escape(s)) <==> OneLine(s)
  {
    if s != [] {
      EscapeOneLine(s[1..]);
      assert s == [s[0]] + s[1..];
      assert Escape(s) == (if s[0] == '\'' then ['\\', '\''] else [s[0]]) + Escape(s[1..]);
    }
  }

  lemma LineOneLine(e: Entry)
    requires ValidKey(e.key) && OneLine(e.value)
    ensures OneLine(Line(e))
  {
    EscapeOneLine(e.value);
  }

  // ---- One line back ------------------------------------------------------

  lemma {:induction false} UnescapeEscape(s: string)
    ensures Unescape(Escape(s)) == s
  {
    if s != [] {
      UnescapeEscape(s[1..]);
      var r := Escape(s[1..]);
      if s[0] == '\'' {
        assert Escape(s)[2..] == r;
      } else {
        assert Escape(s)[1..] == r;
        assert r != [] ==> r[0] != '\'';
      }
    }
  }

  lemma StripNothing(s: string)
    requires s != [] && !Space(s[0]) && !Space(s[|s| - 1])
    ensures Strip(s) == s
  {}

  lemma {:induction false} SeparatorAfter(a: string, rest: string)
    requires '=' !in a
    ensures Separator(a + ['='] + rest) == |a|
  {
    if a == [] {
      assert (a + ['='] + rest)[0] == '=';
    } else {
      assert (a + ['='] + rest)[1..] == a[1..] + ['='] + rest;
      SeparatorAfter(a[1..], rest);
    }
  }

  lemma KeyPlain(key: string)
    requires ValidKey(key)
    ensures '=' !in key && !Space(key[0]) && key[0] != '#' && Strip(key) == key
  {
    assert key[|key| - 1] in key;
    StripNothing(key);
  }

  lemma ParsePrinted(json: Json, e: Entry)
    requires ValidKey(e.key)
    ensures ParseLine(json, Line(e)) == Good(e)
  {
    hide Separator, Escape, Unescape, Strip, ValidKey;
    var quoted := ['\''] + Escape(e.value) + ['\''];
    var line := Line(e);
    KeyPlain(e.key);
    NonemptyKey(e.key);
    assert line == e.key + ['='] + quoted;
    StripNothing(line);
    StripNothing(quoted);
    SeparatorAfter(e.key, quoted);
    assert line[..|e.key|] == e.key && line[|e.key| + 1..] == quoted;
    assert quoted[1..|quoted| - 1] == Escape(e.value);
    UnescapeEscape(e.value);
  }

  lemma NonemptyKey(key: string)
    requires ValidKey(key)
    ensures key != []
  {}

  // ---- The round trip -----------------------------------------------------

  predicate DistinctKeys(entries: seq<Entry>) {
    forall i, j :: 0 <= i < j < |entries| ==> entries[i].key != entries[j].key
  }

  /** Clean entries, whatever follows them, parse to themselves. */
  lemma {:induction false} ParseClean(json: Json, before: seq<Entry>, entries: seq<Entry>, rest: string)
    requires forall e <- entries :: ValidKey(e.key) && OneLine(e.value)
    requires DistinctKeys(before + entries)
    ensures Parse(json, SplitLines(Text(entries) + rest), before) == Parse(json, SplitLines(rest), before + entries)
    decreases |entries|
  {
    hide Line, SplitLines, ParseLine, ValidKey, OneLine;
    if entries == [] {
      assert Text(entries) + rest == rest && before + entries == before;
    } else {
      var e, more := entries[0], entries[1..];
      assert Text(entries) + rest == Line(e) + ['\n'] + (Text(more) + rest);
      LineOneLine(e);
      SplitFirst(Line(e), Text(more) + rest);
      ParsePrinted(json, e);
      assert before + entries == before + [e] + more;
      assert !HasKey(before, e.key) by {
        forall i | 0 <= i < |before| ensures before[i].key != e.key {
          assert (before + entries)[i] == before[i] && (before + entries)[|before|] == e;
        }
      }
      assert ([Line(e)] + SplitLines(Text(more) + rest))[1..] == SplitLines(Text(more) + rest);
      ParseClean(json, before + [e], more, rest);
    }
  }

  // ---- When it fails ------------------------------------------------------

  lemma {:induction false} LineEndPast(a: string, r: string)
    requires OneLine(a)
    ensures LineEnd(a + r) == |a| + LineEnd(r)
  {
    if a == [] {
      assert a + r == r;
    } else {
      assert (a + r)[1..] == a[1..] + r;
      LineEndPast(a[1..], r);
    }
  }

  lemma {:induction false} StripRightAfter(a: string, s: string)
    requires a != [] && !Space(a[|a| - 1])
    ensures StripRight(a + s) == a + StripRight(s)
  {
    if s == [] {
      assert a + s == a && a + StripRight(s) == a;
    } else if Space(s[|s| - 1]) {
      assert (a + s)[..|a + s| - 1] == a + s[..|s| - 1];
      StripRightAfter(a, s[..|s| - 1]);
    }
  }

  lemma {:induction false} StripRightOneLine(s: string)
    requires OneLine(s)
    ensures OneLine(StripRight(s))
  {
    if s != [] && Space(s[|s| - 1]) {
      StripRightOneLine(s[..|s| - 1]);
    }
  }

  lemma {:induction false} UnescapeOneLine(s: string)
    requires OneLine(s)
    ensures OneLine(Unescape(s))
  {
    if s != [] {
      UnescapeOneLine(s[1..]);
      if |s| >= 2 {
        UnescapeOneLine(s[2..]);
      }
    }
  }

  lemma UnquoteOneLine(json: Json, t: string)
    requires OneLine(t)
    ensures Unquote(json, ['\''] + t).Some? && OneLine(Unquote(json, ['\''] + t).value)
  {
    hide Unescape;
    var value := ['\''] + t;
    if |value| >= 2 {
      UnescapeOneLine(value[1..|value| - 1]);
    }
  }

  /** A line that begins like a printed entry gives that key, and a value without line boundaries. */
  lemma ParseTorn(json: Json, key: string, r: string)
    requires ValidKey(key) && OneLine(r)
    ensures ParseLine(json, key + ['=', '\''] + r).Good?
    ensures ParseLine(json, key + ['=', '\''] + r).entry.key == key
    ensures OneLine(ParseLine(json, key + ['=', '\''] + r).entry.value)
  {
    hide Separator, StripRight, ValidKey, Unquote, OneLine;
    var a, raw := key + ['=', '\''], key + ['=', '\''] + r;
    KeyPlain(key);
    NonemptyKey(key);
    assert StripLeft(raw) == raw;
    StripRightAfter(a, r);
    StripRightOneLine(r);
    var t := StripRight(r);
    var line := a + t;
    assert line == key + ['='] + (['\''] + t);
    SeparatorAfter(key, ['\''] + t);
    assert line[..|key|] == key && line[|key| + 1..] == ['\''] + t;
    assert StripLeft(['\''] + t) == ['\''] + t;
    StripRightAfter(['\''], t);
    StripRightOneLine(t);
    UnquoteOneLine(json, StripRight(t));
  }

  lemma {:induction false} ParseKeeps(json: Json, lines: seq<string>, before: seq<Entry>)
    requires DistinctKeys(before)
    ensures var r := Parse(json, lines, before); r.Some? ==> before <= r.value && DistinctKeys(r.value)
    decreases |lines|
  {
    hide ParseLine;
    if lines != [] {
      match ParseLine(json, lines[0])
      case Blank => ParseKeeps(json, lines[1..], before);
      case Bad =>
      case Good(e) =>
        if !HasKey(before, e.key) {
          ParseKeeps(json, lines[1..], before + [e]);
        }
    }
  }

  /** An entry whose value has a line boundary does not come back. */
  lemma TornNotBack(json: Json, before: seq<Entry>, e: Entry, rest: string)
    requires ValidKey(e.key) && !OneLine(e.value) && DistinctKeys(before)
    ensures var r := Parse(json, SplitLines(Line(e) + ['\n'] + rest), before); r.Some? ==> e !in r.value
  {
    hide ParseLine, Escape, DistinctKeys;
    var a := e.key + ['=', '\''];
    var r := Escape(e.value) + ['\''] + ['\n'] + rest;
    var text := Line(e) + ['\n'] + rest;
    assert text == a + r;
    KeyOneLine(e.key);
    LineEndPast(a, r);
    var n := LineEnd(r);
    var lines := SplitLines(text);
    assert text[..|a| + n] == a + r[..n];
    SplitHead(text);
    assert lines[0] == a + r[..n];
    ParseTorn(json, e.key, r[..n]);
    var got := ParseLine(json, lines[0]).entry;
    if !HasKey(before, e.key) && Parse(json, lines, before).Some? {
      assert DistinctKeys(before + [got]) by { DistinctPush(before, got); }
      ParseKeeps(json, lines[1..], before + [got]);
      OnlyOne(Parse(json, lines, before).value, |before|, got, e);
    }
  }

  lemma KeyOneLine(key: string)
    requires ValidKey(key)
    ensures OneLine(key + ['=', '\''])
  {}

  lemma SplitHead(text: string)
    requires text != []
    ensures SplitLines(text) != [] && SplitLines(text)[0] == text[..LineEnd(text)]
  {}

  lemma DistinctPush(entries: seq<Entry>, e: Entry)
    requires DistinctKeys(entries) && !HasKey(entries, e.key)
    ensures DistinctKeys(entries + [e])
  {}

  lemma DistinctPrefix(a: seq<Entry>, b: seq<Entry>)
    requires DistinctKeys(a + b)
    ensures DistinctKeys(a)
  {
    forall i, j | 0 <= i < j < |a| ensures a[i].key != a[j].key {
      assert (a + b)[i] == a[i] && (a + b)[j] == a[j];
    }
  }

  lemma OnlyOne(entries: seq<Entry>, i: nat, got: Entry, e: Entry)
    requires DistinctKeys(entries) && i < |entries| && entries[i] == got && got.key == e.key && got.value != e.value
    ensures e !in entries
  {}

  lemma {:induction false} FirstTorn(entries: seq<Entry>) returns (clean: seq<Entry>, e: Entry, more: seq<Entry>)
    requires !forall x <- entries :: OneLine(x.value)
    ensures entries == clean + ([e] + more) && !OneLine(e.value)
    ensures forall c <- clean :: OneLine(c.value)
  {
    hide OneLine;
    if !OneLine(entries[0].value) {
      clean, e, more := [], entries[0], entries[1..];
    } else {
      assert entries == [entries[0]] + entries[1..];
      clean, e, more := FirstTorn(entries[1..]);
      clean := [entries[0]] + clean;
    }
  }

  lemma {:induction false} TextConcat(a: seq<Entry>, b: seq<Entry>)
    ensures Text(a + b) == Text(a) + Text(b)
  {
    hide Line;
    if a == [] {
      assert a + b == b;
    } else {
      assert (a + b)[1..] == a[1..] + b;
      TextConcat(a[1..], b);
    }
  }

  lemma CleanBack(json: Json, entries: seq<Entry>)
    requires DistinctKeys(entries) && forall e <- entries :: ValidKey(e.key) && OneLine(e.value)
    ensures Parse(json, SplitLines(Text(entries)), []) == Some(entries)
  {
    hide Text, Parse, SplitLines, ValidKey, OneLine;
    assert Text(entries) + [] == Text(entries) && [] + entries == entries;
    ParseClean(json, [], entries, []);
    NoLines(json, entries);
  }

  lemma TornMissing(json: Json, clean: seq<Entry>, e: Entry, more: seq<Entry>)
    requires DistinctKeys(clean) && forall c <- clean :: ValidKey(c.key) && OneLine(c.value)
    requires ValidKey(e.key) && !OneLine(e.value)
    ensures var r := Parse(json, SplitLines(Text(clean + ([e] + more))), []); r.Some? ==> e !in r.value
  {
    hide Line, Text, Parse, SplitLines, ValidKey, OneLine, DistinctKeys;
    TextConcat(clean, [e] + more);
    TextCons(e, more);
    assert [] + clean == clean;
    ParseClean(json, [], clean, Text([e] + more));
    TornNotBack(json, clean, e, Text(more));
  }

  /**
   Parsing what was printed gives the mapping back, entries and order, exactly when no value holds a
   line-boundary character; otherwise some entry is missing from whatever comes back.
   */
  lemma RoundTripIff(json: Json, entries: seq<Entry>)
    requires DistinctKeys(entries) && forall e <- entries :: Printable(e)
    ensures Parse(json, SplitLines(Text(entries)), []) == Some(entries) <==> forall e <- entries :: OneLine(e.value)
    ensures var r := Parse(json, SplitLines(Text(entries)), []);
            r.Some? && r != Some(entries) ==> exists e :: e in entries && e !in r.value
  {
    hide Text, Parse, SplitLines, ValidKey, OneLine, DistinctKeys;
    if forall e <- entries :: OneLine(e.value) {
      CleanBack(json, entries);
    } else {
      var clean, e, more := FirstTorn(entries);
      assert forall c <- clean :: c in entries;
      assert e in entries;
      DistinctPrefix(clean, [e] + more);
      TornMissing(json, clean, e, more);
    }
  }

  lemma NoLines(json: Json, entries: seq<Entry>)
    ensures Parse(json, SplitLines([]), entries) == Some(entries)
  {}

  lemma TextCons(e: Entry, more: seq<Entry>)
    ensures Text([e] + more) == Line(e) + ['\n'] + Text(more)
  {}

  /** A line separator passes the printer's own test and does not survive. */
  lemma LineSeparatorIsLost(json: Json)
    ensures var e := Entry("A", ['x', '\U{2028}', 'y']);
            Printable(e) && Parse(json, SplitLines(Text([e])), []) != Some([e])
  {
    var e := Entry("A", ['x', '\U{2028}', 'y']);
    assert e.value[1] in e.value;
    RoundTripIff(json, [e]);
  }
}
