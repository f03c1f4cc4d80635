/** What each form of line in the environment file parses to, with any blanks around its parts. */
module EnvLines {
  import opened Options
  import opened EnvFile

  predicate AllSpace(s: string) {
    forall c <- s :: Space(c)
  }

  predicate Trimmed(s: string) {
    s != [] ==> !Space(s[0]) && !Space(s[|s| - 1])
  }

  lemma {:induction false} StripLeftPast(l: string, s: string)
    requires AllSpace(l)
    ensures StripLeft(l + s) == StripLeft(s)
  {
    if l == [] {
      assert l + s == s;
    } else {
      assert (l + s)[1..] == l[1..] + s;
      StripLeftPast(l[1..], s);
    }
  }

  lemma {:induction false} StripRightPast(s: string, r: string)
    requires AllSpace(r)
    ensures StripRight(s + r) == StripRight(s)
  {
    if r == [] {
      assert s + r == s;
    } else {
      assert (s + r)[..|s + r| - 1] == s + r[..|r| - 1];
      StripRightPast(s, r[..|r| - 1]);
    }
  }

  lemma StripPadded(l: string, s: string, r: string)
    requires AllSpace(l) && AllSpace(r) && Trimmed(s)
    ensures Strip(l + s + r) == s
  {
    assert l + s + r == l + (s + r);
    StripLeftPast(l, s + r);
    if s == [] {
      assert s + r == r && r + [] == r && [] + r == r;
      StripLeftPast(r, []);
    } else {
      StripRightPast(s, r);
    }
  }

  lemma BlankLine(json: Json, raw: string)
    requires AllSpace(raw)
    ensures ParseLine(json, raw) == Blank
  {
    assert raw + [] + [] == raw;
    StripPadded(raw, [], []);
  }

  lemma {:induction false} StripRightKeeps(c: char, t: string)
    requires !Space(c)
    ensures StripRight([c] + t) != [] && StripRight([c] + t)[0] == c
  {
    if t != [] {
      assert ([c] + t)[..|t|] == [c] + t[..|t| - 1];
      StripRightKeeps(c, t[..|t| - 1]);
    }
  }

  lemma CommentLine(json: Json, l: string, text: string)
    requires AllSpace(l)
    ensures ParseLine(json, l + ['#'] + text) == Blank
  {
    assert l + ['#'] + text == l + (['#'] + text);
    StripLeftPast(l, ['#'] + text);
    StripRightKeeps('#', text);
  }

  lemma {:induction false} NoSeparator(s: string)
    requires '=' !in s
    ensures Separator(s) == |s|
  {
    if s != [] {
      NoSeparator(s[1..]);
    }
  }

  /** A line that is neither blank nor a comment must have an equals sign. */
  lemma LineWithoutEquals(json: Json, l: string, s: string, r: string)
    requires AllSpace(l) && AllSpace(r) && Trimmed(s) && s != [] && s[0] != '#' && '=' !in s
    ensures ParseLine(json, l + s + r) == Bad
  {
    StripPadded(l, s, r);
    NoSeparator(s);
  }

  /** The entries of the lines that have one, in order. */
  function EntriesOf(json: Json, lines: seq<string>): seq<Entry> {
    if lines == [] then []
    else
      match ParseLine(json, lines[0])
      case Good(e) => [e] + EntriesOf(json, lines[1..])
      case _ => EntriesOf(json, lines[1..])
  }

  predicate NoneBad(json: Json, lines: seq<string>) {
    forall line <- lines :: !ParseLine(json, line).Bad?
  }

  lemma DistinctCons(before: seq<Entry>, e: Entry, more: seq<Entry>)
    requires DistinctKeys(before)
    ensures DistinctKeys(before + ([e] + more)) ==> !HasKey(before, e.key)
    ensures before + ([e] + more) == before + [e] + more
    ensures !HasKey(before, e.key) ==> DistinctKeys(before + [e])
  {
    var all := before + ([e] + more);
    if i :| 0 <= i < |before| && before[i].key == e.key {
      assert all[i].key == all[|before|].key;
    }
  }

  /** A text is read iff no line of it is bad and no key comes twice, and then to its lines' entries. */
  lemma {:induction false} ParseMeaning(json: Json, lines: seq<string>, before: seq<Entry>)
    requires DistinctKeys(before)
    ensures Parse(json, lines, before) ==
              if NoneBad(json, lines) && DistinctKeys(before + EntriesOf(json, lines))
              then Some(before + EntriesOf(json, lines)) else None
    decreases |lines|
  {
    hide ParseLine, HasKey, DistinctKeys;
    if lines == [] {
      assert before + [] == before;
    } else {
      assert lines == [lines[0]] + lines[1..];
      match ParseLine(json, lines[0]) {
        case Bad => assert lines[0] in lines;
        case Blank => ParseMeaning(json, lines[1..], before);
        case Good(e) =>
          DistinctCons(before, e, EntriesOf(json, lines[1..]));
          if !HasKey(before, e.key) {
            ParseMeaning(json, lines[1..], before + [e]);
          }
      }
    }
  }

  /** A key, an equals sign and a value. */
  function Assignment(l: string, key: string, m: string, m': string, value: string, r: string): string {
    l + key + m + ['='] + m' + value + r
  }

  /** The blanks around an assignment are taken, those inside stay. */
  lemma StripAssignment(l: string, key: string, m: string, m': string, value: string, r: string)
    requires AllSpace(l) && AllSpace(m) && AllSpace(m') && AllSpace(r) && Trimmed(key) && Trimmed(value)
    ensures Strip(Assignment(l, key, m, m', value, r)) ==
              (if key == [] then [] else key + m) + ['='] + (if value == [] then [] else m' + value)
  {
    var left, right := if key == [] then l + m else l, if value == [] then m' + r else r;
    var k, v := if key == [] then [] else key + m, if value == [] then [] else m' + value;
    assert Assignment(l, key, m, m', value, r) == left + (k + ['='] + v) + right;
    StripPadded(left, k + ['='] + v, right);
  }

  lemma StripKey(key: string, m: string)
    requires AllSpace(m) && Trimmed(key)
    ensures Strip(if key == [] then [] else key + m) == key
  {
    StripPadded([], key, m);
    assert [] + key + m == key + m;
  }

  lemma StripValue(m: string, value: string)
    requires AllSpace(m) && Trimmed(value)
    ensures Strip(if value == [] then [] else m + value) == value
  {
    StripPadded(m, value, []);
    assert m + value + [] == m + value;
  }

  /** An assignment to a key that is none is refused; otherwise its value counts, without its quotes. */
  lemma ParseAssignment(json: Json, l: string, key: string, m: string, m': string, value: string, r: string)
    requires AllSpace(l) && AllSpace(m) && AllSpace(m') && AllSpace(r) && Trimmed(key) && Trimmed(value)
    requires '=' !in key && (key != [] ==> key[0] != '#')
    ensures ParseLine(json, Assignment(l, key, m, m', value, r)) ==
              if !ValidKey(key) then Bad
              else match Unquote(json, value)
                   case None => Bad
                   case Some(v) => Good(Entry(key, v))
  {
    hide Strip, ValidKey, Unquote, Separator;
    StripAssignment(l, key, m, m', value, r);
    StripKey(key, m);
    StripValue(m', value);
    var k, v := if key == [] then [] else key + m, if value == [] then [] else m' + value;
    assert '=' !in m by { assert !Space('='); }
    SeparatorAfter(k, v);
    var line := k + ['='] + v;
    assert line[..|k|] == k && line[|k| + 1..] == v;
  }

  /** A value that begins with no quote, or with a single one that is not closed, is taken as it stands. */
  lemma PlainValue(json: Json, l: string, key: string, m: string, m': string, value: string, r: string)
    requires AllSpace(l) && AllSpace(m) && AllSpace(m') && AllSpace(r) && Trimmed(value) && ValidKey(key)
    requires value != [] ==> value[0] != '"' && !(value[0] == '\'' && value[|value| - 1] == '\'')
    ensures ParseLine(json, Assignment(l, key, m, m', value, r)) == Good(Entry(key, value))
  {
    KeyTrimmed(key);
    ParseAssignment(json, l, key, m, m', value, r);
  }

  lemma KeyTrimmed(key: string)
    requires ValidKey(key)
    ensures Trimmed(key) && '=' !in key && key[0] != '#'
  {
    KeyPlain(key);
    assert key[|key| - 1] in key;
  }

  /** Between single quotes only escaped quotes are read otherwise. */
  lemma SingleQuotedValue(json: Json, l: string, key: string, m: string, m': string, text: string, r: string)
    requires AllSpace(l) && AllSpace(m) && AllSpace(m') && AllSpace(r) && ValidKey(key)
    ensures ParseLine(json, Assignment(l, key, m, m', ['\''] + Escape(text) + ['\''], r)) == Good(Entry(key, text))
  {
    var value := ['\''] + Escape(text) + ['\''];
    KeyTrimmed(key);
    ParseAssignment(json, l, key, m, m', value, r);
    assert value[1..|value| - 1] == Escape(text);
    UnescapeEscape(text);
  }

  /** A dollar sign written twice. */
  function Doubled(s: string): string {
    if s == [] then [] else (if s[0] == '$' then ['$', '$'] else [s[0]]) + Doubled(s[1..])
  }

  lemma {:induction false} DollarsDoubled(s: string)
    ensures Dollars(Doubled(s)) == s
  {
    if s != [] {
      DollarsDoubled(s[1..]);
      var d := Doubled(s);
      if s[0] == '$' {
        assert d[2..] == Doubled(s[1..]);
      } else {
        assert d[1..] == Doubled(s[1..]);
      }
    }
  }

  /** A dollar sign on its own stays. */
  lemma {:induction false} DollarsAlone(s: string)
    requires forall i :: 0 <= i < |s| - 1 ==> !(s[i] == '$' && s[i + 1] == '$')
    ensures Dollars(s) == s
  {
    if s != [] {
      var rest := s[1..];
      forall i | 0 <= i < |rest| - 1 ensures !(rest[i] == '$' && rest[i + 1] == '$') {
        assert rest[i] == s[i + 1];
      }
      DollarsAlone(rest);
    }
  }

  /** A value that begins with a double quote is a JSON string with its dollar signs doubled, or refused. */
  lemma DoubleQuotedValue(json: Json, l: string, key: string, m: string, m': string, value: string, r: string)
    requires AllSpace(l) && AllSpace(m) && AllSpace(m') && AllSpace(r) && ValidKey(key)
    requires Trimmed(value) && value != [] && value[0] == '"'
    ensures json(value).None? ==> ParseLine(json, Assignment(l, key, m, m', value, r)) == Bad
    ensures forall text :: json(value) == Some(Doubled(text)) ==>
              ParseLine(json, Assignment(l, key, m, m', value, r)) == Good(Entry(key, text))
  {
    KeyTrimmed(key);
    ParseAssignment(json, l, key, m, m', value, r);
    forall text | json(value) == Some(Doubled(text)) ensures Unquote(json, value) == Some(text) {
      DollarsDoubled(text);
    }
  }
}
