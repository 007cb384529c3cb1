/** The `KEY=VALUE` config file: its parser, and a printer that any such file comes from. */
module ConfigFile {
  import opened Text

  // ---- lines ----

  function WithoutCr(line: string): string {
    if line != "" && line[|line| - 1] == '\r' then line[..|line| - 1] else line
  }

  /** `str::lines`: split at newlines, one carriage return before each dropped, and nothing after
      a final newline. */
  function LinesFrom(s: string, i: nat): seq<string>
    requires i <= |s|
    decreases |s| - i
  {
    if i == |s| then []
    else
      var j := NextChar(s, i, '\n');
      if j == |s| then [s[i..]] else [WithoutCr(s[i..j])] + LinesFrom(s, j + 1)
  }

  // ---- one line ----

  predicate Wrapped(value: string, quote: char) { |value| >= 2 && value[0] == quote && value[|value| - 1] == quote }

  /** One layer of matching quotes off. */
  function Unquoted(value: string): string {
    if Wrapped(value, '"') || Wrapped(value, '\'') then value[1..|value| - 1] else value
  }

  function ParseLine(text: string): Option<(string, string)> {
    var line := Trim(text);
    if line == "" || line[0] == '#' then None
    else
      var eq := NextChar(line, 0, '=');
      if eq == |line| then None
      else
        var key := Trim(line[..eq]);
        if key == "" then None else Some((key, Unquoted(Trim(line[eq + 1..]))))
  }

  function Collected(lines: seq<string>, k: nat): map<string, string>
    requires k <= |lines|
  {
    if k == 0 then map[]
    else
      var entry := ParseLine(lines[k - 1]);
      if entry.None? then Collected(lines, k - 1) else Collected(lines, k - 1)[entry.value.0 := entry.value.1]
  }

  function Parsed(contents: string): map<string, string> {
    var lines := LinesFrom(contents, 0);
    Collected(lines, |lines|)
  }

  lemma LinesFromIs(done: seq<string>, s: string, i: nat)
    requires i < |s|
    ensures var j := NextChar(s, i, '\n');
            done + LinesFrom(s, i) ==
              if j == |s| then done + [s[i..]] + LinesFrom(s, |s|)
              else done + [WithoutCr(s[i..j])] + LinesFrom(s, j + 1)
  {
    hide NextChar;
    hide WithoutCr;
  }

  lemma LinesStart(s: string)
    ensures [] + LinesFrom(s, 0) == LinesFrom(s, 0)
  {
  }

  lemma LinesEnd(done: seq<string>, s: string)
    ensures done + LinesFrom(s, |s|) == done
  {
  }

  method Lines(contents: string) returns (lines: seq<string>)
    ensures lines == LinesFrom(contents, 0)
  {
    hide *;
    lines := [];
    LinesStart(contents);
    var i := 0;
    while i < |contents|
      invariant 0 <= i <= |contents|
      invariant lines + LinesFrom(contents, i) == LinesFrom(contents, 0)
    {
      LinesFromIs(lines, contents, i);
      var j := NextChar(contents, i, '\n');
      if j == |contents| {
        lines := lines + [contents[i..]];
        i := j;
      } else {
        lines := lines + [WithoutCr(contents[i..j])];
        i := j + 1;
      }
    }
    LinesEnd(lines, contents);
  }

  /** `parse_config_file`. */
  method ParseConfigFile(contents: string) returns (entries: map<string, string>)
    ensures entries == Parsed(contents)
  {
    hide Trim;
    hide NextChar;
    hide Unquoted;
    hide LinesFrom;
    entries := map[];
    var lines := Lines(contents);
    for k := 0 to |lines|
      invariant entries == Collected(lines, k)
    {
      var line := Trim(lines[k]);
      if line == "" || line[0] == '#' {
        continue;
      }
      var eq := NextChar(line, 0, '=');
      if eq == |line| {
        continue;
      }
      var key := Trim(line[..eq]);
      if key == "" {
        continue;
      }
      var value := Trim(line[eq + 1..]);
      entries := entries[key := Unquoted(value)];
    }
  }

  // ---- printing ----

  datatype Style = Plain | Single | Double

  /** An entry with any white space around its parts and its value quoted or not, or a line that says
      nothing. */
  datatype Line =
    | Entry(indent: string, key: string, before: string, after: string, value: string, style: Style, trailing: string)
    | Silent(text: string)

  predicate Blank(s: string) { AllSpace(s) && '\n' !in s }

  /** A key that can be written back: trimmed, not empty, no `=` or newline, no leading `#`. */
  predicate GoodKey(key: string) {
    key != "" && Trimmed(key) && '=' !in key && '\n' !in key && key[0] != '#'
  }

  /** Blank, a comment, without a `=`, or with no key in front of it. */
  predicate SaysNothing(text: string) {
    && '\n' !in text
    && (Trim(text) == "" || Trim(text)[0] == '#' || '=' !in text || LacksKey(text))
  }

  predicate LacksKey(text: string) {
    exists k :: 0 <= k < |text| && text[k] == '=' && AllSpace(text[..k])
  }

  /** A value that reads the same without quotes: trimmed, and in no quotes of its own. */
  predicate ReadsPlain(value: string) {
    Trimmed(value)
    && (|value| >= 2 && value[0] == value[|value| - 1] ==> value[0] != '"' && value[0] != '\'')
  }

  predicate Good(line: Line) {
    match line
    case Entry(indent, key, before, after, value, style, trailing) =>
      && GoodKey(key) && '\n' !in value && Blank(indent) && Blank(before) && Blank(after) && Blank(trailing)
      && (style.Plain? ==> ReadsPlain(value) && (value == "" ==> after == ""))
    case Silent(text) => SaysNothing(text)
  }

  function Written(value: string, style: Style): string {
    match style
    case Plain => value
    case Single => "'" + value + "'"
    case Double => "\"" + value + "\""
  }

  function Core(key: string, before: string, after: string, written: string): string {
    key + before + "=" + (after + written)
  }

  function Shown(line: Line): string {
    match line
    case Entry(indent, key, before, after, value, style, trailing) =>
      indent + Core(key, before, after, Written(value, style)) + trailing
    case Silent(text) => text
  }

  function Print(lines: seq<Line>): string {
    if lines == [] then "" else Shown(lines[0]) + "\n" + Print(lines[1..])
  }

  /** The map the entries mean, a later one replacing an earlier one of the same key. */
  function Meaning(lines: seq<Line>, k: nat): map<string, string>
    requires k <= |lines|
  {
    if k == 0 then map[]
    else if lines[k - 1].Silent? then Meaning(lines, k - 1)
    else Meaning(lines, k - 1)[lines[k - 1].key := lines[k - 1].value]
  }

  lemma {:induction false} KeyPresent(lines: seq<Line>, k: nat, key: string)
    requires k <= |lines|
    ensures key in Meaning(lines, k) <==> exists j :: 0 <= j < k && lines[j].Entry? && lines[j].key == key
  {
    if k > 0 { KeyPresent(lines, k - 1, key); }
  }

  lemma {:induction false} LastValue(lines: seq<Line>, k: nat, key: string, j: int)
    requires LastFor(lines, k, key, j)
    ensures key in Meaning(lines, k) && Meaning(lines, k)[key] == lines[j].value
  {
    if j < k - 1 { LastValue(lines, k - 1, key, j); }
  }

  /** A key has the value of its last entry, and is there just when it has one. */
  lemma {:induction false} LastEntryWins(lines: seq<Line>, k: nat, key: string)
    requires k <= |lines|
    ensures key in Meaning(lines, k) <==> exists j :: 0 <= j < k && lines[j].Entry? && lines[j].key == key
    ensures forall j :: LastFor(lines, k, key, j) ==>
              key in Meaning(lines, k) && Meaning(lines, k)[key] == lines[j].value
  {
    KeyPresent(lines, k, key);
    hide *;
    forall j | LastFor(lines, k, key, j) ensures key in Meaning(lines, k) && Meaning(lines, k)[key] == lines[j].value {
      LastValue(lines, k, key, j);
    }
  }

  /** Entry `j` is the last for the key among the first `k` lines. */
  predicate LastFor(lines: seq<Line>, k: nat, key: string, j: int) {
    && 0 <= j < k <= |lines| && lines[j].Entry? && lines[j].key == key
    && forall i :: j < i < k && lines[i].Entry? ==> lines[i].key != key
  }

  lemma AllSpaceTrimsAway(s: string)
    requires AllSpace(s)
    ensures Trim(s) == ""
  {
    TrimStartIs(s, "");
    assert s + "" == s;
  }

  lemma CrTrimsAway(s: string)
    ensures Trim(WithoutCr(s)) == Trim(s)
  {
    var a, b := TrimSplits(s);
    TrimTrimmed(s);
    var core := Trim(s);
    hide Trim;
    if WithoutCr(s) != s {
      var r := WithoutCr(s);
      if core == "" {
        assert s == a + b && AllSpace(a + b) && AllSpace(r);
        AllSpaceTrimsAway(r);
      } else {
        LastOfCore(s, a, core, b);
        var c := b[..|b| - 1];
        assert r == a + core + c;
        TrimIs(a, core, c);
      }
    }
  }

  lemma LastOfCore(s: string, a: string, core: string, b: string)
    requires s == a + core + b && core != ""
    ensures b == "" ==> s[|s| - 1] == core[|core| - 1]
  {
  }

  /** What stands behind the `=`: nothing at all, or text that trimming leaves alone. */
  predicate WrittenOk(after: string, written: string) {
    Trimmed(written) && (written == "" ==> after == "")
  }

  /** The trimmed text of an entry: its key ends before the first `=`. */
  lemma CoreSplits(key: string, before: string, after: string, written: string)
    requires GoodKey(key) && Blank(before) && WrittenOk(after, written)
    ensures var core := Core(key, before, after, written);
            && core != "" && Trimmed(core) && core[0] == key[0] && core[0] != '#'
            && NextChar(core, 0, '=') == |key + before| < |core|
            && core[..|key + before|] == key + before && core[|key + before| + 1..] == after + written
  {
    var core := key + before + "=" + (after + written);
    var n := |key + before|;
    assert core[n] == '=' && core[0] == key[0];
    assert core[|core| - 1] == if written == "" then '=' else written[|written| - 1];
    assert forall k :: 0 <= k < n ==> core[k] == (key + before)[k];
    assert forall k :: 0 <= k < |before| ==> IsSpace(before[k]);
    NextCharIs(core, 0, '=', n);
    hide NextChar;
  }

  lemma WrittenIs(value: string, style: Style, after: string)
    requires style.Plain? ==> ReadsPlain(value) && (value == "" ==> after == "")
    ensures var w := Written(value, style); WrittenOk(after, w) && Unquoted(w) == value
  {
    var w := Written(value, style);
    if !style.Plain? {
      assert w[0] == w[|w| - 1] && w[1..|w| - 1] == value;
    }
  }

  lemma ParseCore(text: string, core: string, eq: nat, key: string, quoted: string)
    requires Trim(text) == core && core != "" && core[0] != '#' && NextChar(core, 0, '=') == eq < |core|
    requires Trim(core[..eq]) == key && key != "" && Trim(core[eq + 1..]) == quoted
    ensures ParseLine(text) == Some((key, Unquoted(quoted)))
  {
    hide Trim;
    hide NextChar;
    hide Unquoted;
  }

  lemma EntryParses(line: Line)
    requires Good(line) && line.Entry?
    ensures ParseLine(Shown(line)) == Some((line.key, line.value))
  {
    var Entry(indent, key, before, after, value, style, trailing) := line;
    hide *;
    EntryParts(line);
    WrittenIs(value, style, after);
    var written := Written(value, style);
    CoreSplits(key, before, after, written);
    TrimIs(indent, Core(key, before, after, written), trailing);
    TrimOneSide(key, before);
    TrimWritten(after, written);
    ParseCore(Shown(line), Core(key, before, after, written), |key + before|, key, written);
  }

  lemma TrimWritten(after: string, written: string)
    requires AllSpace(after) && WrittenOk(after, written)
    ensures Trim(after + written) == written
  {
    hide Trim;
    if written == "" {
      AllSpaceTrimsAway("");
      assert after + written == "";
    } else {
      TrimOneSide(written, after);
    }
  }

  lemma TrimOneSide(s: string, a: string)
    requires s != "" && Trimmed(s) && AllSpace(a)
    ensures Trim(s + a) == s && Trim(a + s) == s
  {
    hide Trim;
    TrimIs("", s, a);
    assert "" + s + a == s + a;
    TrimIs(a, s, "");
    assert a + s + "" == a + s;
  }

  lemma EntryParts(line: Line)
    requires Good(line) && line.Entry?
    ensures GoodKey(line.key) && Blank(line.before) && Blank(line.after) && line.key != "" && Trimmed(line.key)
    ensures AllSpace(line.indent) && AllSpace(line.before) && AllSpace(line.after) && AllSpace(line.trailing)
    ensures AllSpace("")
    ensures line.style.Plain? ==> ReadsPlain(line.value) && (line.value == "" ==> line.after == "")
    ensures Shown(line) ==
            line.indent + Core(line.key, line.before, line.after, Written(line.value, line.style)) + line.trailing
  {
    hide Core;
    hide Written;
    hide ReadsPlain;
  }

  lemma NoKey(text: string)
    requires LacksKey(text)
    ensures ParseLine(text) == None
  {
    var k :| 0 <= k < |text| && text[k] == '=' && AllSpace(text[..k]);
    TrimFromKey(text, k);
    var b := Trim(text);
    NextCharIs(b, 0, '=', 0);
    AllSpaceTrimsAway("");
    assert b[..0] == "";
    hide Trim;
    hide NextChar;
  }

  lemma TrimFromKey(text: string, k: nat)
    requires k < |text| && text[k] == '=' && AllSpace(text[..k])
    ensures Trim(text) != "" && Trim(text)[0] == '='
  {
    var rest := text[k..];
    assert text == text[..k] + rest && rest[0] == '=' && !IsSpace('=');
    TrimStartIs(text[..k], rest);
    TrimEndKeepsFirst(rest);
    hide TrimEnd;
    hide TrimStart;
  }

  lemma {:induction false} TrimEndKeepsFirst(s: string)
    requires s != "" && !IsSpace(s[0])
    ensures TrimEnd(s) != "" && TrimEnd(s)[0] == s[0]
  {
    if IsSpace(s[|s| - 1]) { TrimEndKeepsFirst(s[..|s| - 1]); }
  }

  lemma TrimHasNoMore(text: string, c: char)
    requires c !in text
    ensures c !in Trim(text)
  {
    var a, b := TrimSplits(text);
    hide Trim;
    var t := Trim(text);
    forall j | 0 <= j < |t| ensures t[j] != c {
      assert (a + t + b)[|a| + j] == t[j];
    }
  }

  lemma SilentIsIgnored(text: string)
    requires SaysNothing(text)
    ensures ParseLine(text) == None
  {
    if LacksKey(text) {
      NoKey(text);
    } else if '=' !in text {
      TrimHasNoMore(text, '=');
    }
    hide Trim;
    hide NextChar;
    hide LacksKey;
  }

  lemma ParseIgnoresCr(text: string)
    ensures ParseLine(WithoutCr(text)) == ParseLine(text)
  {
    CrTrimsAway(text);
    hide Trim;
    hide WithoutCr;
    hide NextChar;
  }

  lemma ShownOnOneLine(line: Line)
    requires Good(line)
    ensures '\n' !in Shown(line)
  {
    hide Trim;
  }

  lemma {:induction false} LineEndShift(a: string, s: string, i: nat)
    requires i <= |s|
    ensures NextChar(a + s, |a| + i, '\n') == |a| + NextChar(s, i, '\n')
    decreases |s| - i
  {
    if i < |s| && s[i] != '\n' { LineEndShift(a, s, i + 1); }
  }

  lemma LinesStep(s: string, i: nat)
    requires i <= |s|
    ensures var j := NextChar(s, i, '\n');
            LinesFrom(s, i) ==
              if i == |s| then [] else if j == |s| then [s[i..]] else [WithoutCr(s[i..j])] + LinesFrom(s, j + 1)
  {
    hide NextChar;
    hide WithoutCr;
  }

  lemma {:induction false} LinesShift(a: string, s: string, i: nat)
    requires i <= |s|
    ensures LinesFrom(a + s, |a| + i) == LinesFrom(s, i)
    decreases |s| - i
  {
    hide *;
    LineEndShift(a, s, i);
    LinesStep(s, i);
    LinesStep(a + s, |a| + i);
    var j := NextChar(s, i, '\n');
    if i < |s| {
      assert (a + s)[|a| + i..] == s[i..] && (a + s)[|a| + i..|a| + j] == s[i..j];
      if j < |s| { LinesShift(a, s, j + 1); }
    }
  }

  lemma FirstLineOf(line: string, rest: string)
    requires '\n' !in line
    ensures LinesFrom(line + "\n" + rest, 0) == [WithoutCr(line)] + LinesFrom(rest, 0)
  {
    var s := line + "\n" + rest;
    NextCharIs(s, 0, '\n', |line|);
    assert s[0..|line|] == line;
    LinesShift(line + "\n", rest, 0);
    hide NextChar;
    hide WithoutCr;
  }

  function ShownLines(lines: seq<Line>): seq<string> {
    if lines == [] then [] else [WithoutCr(Shown(lines[0]))] + ShownLines(lines[1..])
  }

  lemma {:induction false} PrintedLines(lines: seq<Line>)
    requires forall k :: 0 <= k < |lines| ==> Good(lines[k])
    ensures LinesFrom(Print(lines), 0) == ShownLines(lines)
  {
    hide Good;
    hide Shown;
    hide WithoutCr;
    if lines != [] {
      ShownOnOneLine(lines[0]);
      PrintedLines(lines[1..]);
      FirstLineOf(Shown(lines[0]), Print(lines[1..]));
      hide LinesFrom;
    }
  }

  lemma {:induction false} ShownLinesAre(lines: seq<Line>)
    ensures |ShownLines(lines)| == |lines|
    ensures forall k :: 0 <= k < |lines| ==> ShownLines(lines)[k] == WithoutCr(Shown(lines[k]))
  {
    hide WithoutCr;
    hide Shown;
    if lines != [] { ShownLinesAre(lines[1..]); }
  }

  lemma {:induction false} CollectedIsMeaning(lines: seq<Line>, texts: seq<string>, k: nat)
    requires k <= |lines| == |texts| && forall j :: 0 <= j < |lines| ==> Good(lines[j])
    requires forall j :: 0 <= j < |lines| ==> texts[j] == WithoutCr(Shown(lines[j]))
    ensures Collected(texts, k) == Meaning(lines, k)
  {
    hide WithoutCr;
    hide ParseLine;
    hide Good;
    hide Shown;
    if k > 0 {
      CollectedIsMeaning(lines, texts, k - 1);
      LineParses(lines[k - 1]);
    }
  }

  lemma LineParses(line: Line)
    requires Good(line)
    ensures ParseLine(WithoutCr(Shown(line))) == if line.Entry? then Some((line.key, line.value)) else None
  {
    ParseIgnoresCr(Shown(line));
    if line.Entry? { EntryParses(line); } else { SilentIsIgnored(line.text); }
    hide ParseLine;
    hide WithoutCr;
  }

  /** Printing entries, among any comments and blank lines and with any spacing, and parsing
      gives back what they mean, even for values with quotes, `=`, `#` or outer white space. */
  lemma PrintThenParse(lines: seq<Line>)
    requires forall k :: 0 <= k < |lines| ==> Good(lines[k])
    ensures Parsed(Print(lines)) == Meaning(lines, |lines|)
  {
    hide Good;
    hide LinesFrom;
    hide Collected;
    hide ShownLines;
    PrintedLines(lines);
    ShownLinesAre(lines);
    CollectedIsMeaning(lines, ShownLines(lines), |lines|);
  }
}
