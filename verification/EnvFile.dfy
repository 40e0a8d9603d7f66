/** The env-file parser and renderer of scripts/generate_demo_env.py. */
module EnvFile {
  import opened Prelude
  import opened PyStrings
  import opened PyDict

  // ---- Reading text ----

  /** What `read_text` makes of the file's characters: "\r\n" and "\r" become "\n". */
  function UniversalNewlines(s: string): string
    decreases |s|
  {
    if s == "" then ""
    else if s[0] != '\r' then [s[0]] + UniversalNewlines(s[1..])
    else if |s| > 1 && s[1] == '\n' then "\n" + UniversalNewlines(s[2..])
    else "\n" + UniversalNewlines(s[1..])
  }

  lemma {:induction false} UniversalFirstLine(s: string)
    ensures var u := UniversalNewlines(s);
      && BodyLen(u) == BodyLen(s) && u[..BodyLen(u)] == s[..BodyLen(s)]
      && u[FullLen(u)..] == UniversalNewlines(s[FullLen(s)..])
      && (s != "" ==> u != "")
    decreases |s|
  {
    var u := UniversalNewlines(s);
    if s == "" {
    } else if IsLineBreak(s[0]) {
      assert BodyLen(s) == 0;
      assert u[0] == if s[0] == '\r' then '\n' else s[0];
      assert BodyLen(u) == 0 && FullLen(u) == 1;
    } else {
      var rest := s[1..];
      UniversalFirstLine(rest);
      assert u == [s[0]] + UniversalNewlines(rest);
      FirstCharNoBreak(s);
      FirstCharNoBreak(u);
      assert u[1..] == UniversalNewlines(rest);
      assert u[FullLen(u)..] == u[1..][FullLen(u[1..])..];
      assert s[FullLen(s)..] == rest[FullLen(rest)..];
    }
  }

  lemma FirstCharNoBreak(s: string)
    requires s != "" && !IsLineBreak(s[0])
    ensures BodyLen(s) == 1 + BodyLen(s[1..]) && FullLen(s) == 1 + FullLen(s[1..])
    ensures s[..BodyLen(s)] == [s[0]] + s[1..][..BodyLen(s[1..])]
  {
  }

  /** Translating newlines first does not change the lines. */
  lemma {:induction false} UniversalSameLines(s: string)
    ensures SplitLines(UniversalNewlines(s)) == SplitLines(s)
    decreases |s|
  {
    UniversalFirstLine(s);
    if s != "" {
      UniversalSameLines(s[FullLen(s)..]);
    }
  }

  // ---- parse_env_file ----

  datatype ParseError = MissingEquals(line: nat) | InvalidOrDuplicateKey(line: nat)

  function ParseLine(raw: string, number: nat, values: Dict<string>): Result<Dict<string>, ParseError> {
    var line := Strip(raw);
    if line == "" || line[0] == '#' then Ok(values)
    else if '=' !in line then Err(MissingEquals(number))
    else
      var i := IndexOf(line, '=');
      assert i < |line|;
      var key := Strip(line[..i]);
      if key == "" || HasKey(values, key) then Err(InvalidOrDuplicateKey(number))
      else Ok(Put(values, key, Strip(line[i + 1..])))
  }

  function ParseLines(lines: seq<string>, number: nat, values: Dict<string>): Result<Dict<string>, ParseError>
    decreases |lines|
  {
    if lines == [] then Ok(values)
    else
      var r := ParseLine(lines[0], number, values);
      if r.Err? then r else ParseLines(lines[1..], number + 1, r.value)
  }

  lemma ParseLinesStep(lines: seq<string>, n: nat, values: Dict<string>)
    requires n < |lines|
    ensures ParseLines(lines[n..], n + 1, values) ==
            var r := ParseLine(lines[n], n + 1, values);
            if r.Err? then r else ParseLines(lines[n + 1..], n + 2, r.value)
  {
    assert lines[n..][0] == lines[n] && lines[n..][1..] == lines[n + 1..];
  }

  function Parsed(text: string): Result<Dict<string>, ParseError> {
    ParseLines(SplitLines(UniversalNewlines(text)), 1, [])
  }

  method ParseEnvFile(text: string) returns (result: Result<Dict<string>, ParseError>)
    ensures result == Parsed(text)
  {
    var values: Dict<string> := [];
    var lines := SplitLines(UniversalNewlines(text));
    for n := 0 to |lines|
      invariant ParseLines(lines[n..], n + 1, values) == Parsed(text)
    {
      ParseLinesStep(lines, n, values);
      var line := Strip(lines[n]);
      if line == "" || line[0] == '#' {
        continue;
      }
      if '=' !in line {
        return Err(MissingEquals(n + 1));
      }
      var i := IndexOf(line, '=');
      var key, value := line[..i], line[i + 1..];
      key := Strip(key);
      if key == "" || HasKey(values, key) {
        return Err(InvalidOrDuplicateKey(n + 1));
      }
      values := Put(values, key, Strip(value));
    }
    result := Ok(values);
  }

  // ---- _render ----

  const GENERATED_LINE := "# Generated by scripts/generate_demo_env.py."
  // In two halves, since a long literal is checked one character at a time.
  const LOCAL_ONLY_START := "# Local demo only. Do not reuse"
  const LOCAL_ONLY_END := " these credentials in production."
  const LOCAL_ONLY_LINE := LOCAL_ONLY_START + LOCAL_ONLY_END
  const HEADER: seq<string> := [GENERATED_LINE, LOCAL_ONLY_LINE]

  /** `"\n".join(lines)` */
  function JoinLines(lines: seq<string>): string {
    if lines == [] then "" else if |lines| == 1 then lines[0] else lines[0] + "\n" + JoinLines(lines[1..])
  }

  function EntryLines(values: Dict<string>): seq<string> {
    seq(|values|, i requires 0 <= i < |values| => values[i].0 + "=" + values[i].1)
  }

  function Render(values: Dict<string>): string {
    JoinLines(HEADER + EntryLines(values)) + "\n"
  }

  // ---- Exactly which maps survive the trip ----

  predicate SingleLine(s: string) {
    forall i :: 0 <= i < |s| ==> !IsLineBreak(s[i])
  }

  predicate GoodKey(k: string) {
    k != "" && Trimmed(k) && k[0] != '#' && '=' !in k && SingleLine(k)
  }

  predicate GoodValue(v: string) {
    Trimmed(v) && SingleLine(v)
  }

  /** Distinct keys an env file can name, and values that fit on one line without white space at their ends. */
  predicate Representable(values: Dict<string>) {
    Distinct(values) && forall i :: 0 <= i < |values| ==> GoodKey(values[i].0) && GoodValue(values[i].1)
  }

  lemma {:induction false} BodyLenOfLine(line: string, rest: string)
    requires SingleLine(line)
    ensures BodyLen(line + "\n" + rest) == |line| && FullLen(line + "\n" + rest) == |line| + 1
  {
    var s := line + "\n" + rest;
    if line == "" {
      assert s[0] == '\n';
    } else {
      BodyLenOfLine(line[1..], rest);
      assert s[1..] == line[1..] + "\n" + rest;
      assert s[0] == line[0];
      assert s[|line|] == '\n';
    }
  }

  lemma SplitFirstLine(line: string, rest: string)
    requires SingleLine(line)
    ensures SplitLines(line + "\n" + rest) == [line] + SplitLines(rest)
  {
    var s := line + "\n" + rest;
    BodyLenOfLine(line, rest);
    assert s[..|line|] == line;
    assert s[|line| + 1..] == rest;
  }

  lemma SplitOnlyLine(line: string)
    requires SingleLine(line)
    ensures SplitLines(line + "\n") == [line]
  {
    SplitFirstLine(line, "");
    assert line + "\n" + "" == line + "\n";
  }

  lemma JoinCons(line: string, lines: seq<string>)
    requires lines != []
    ensures JoinLines([line] + lines) + "\n" == line + "\n" + (JoinLines(lines) + "\n")
  {
    assert ([line] + lines)[1..] == lines;
  }

  lemma {:induction false} SplitJoined(lines: seq<string>)
    requires lines != [] && forall i :: 0 <= i < |lines| ==> SingleLine(lines[i])
    ensures SplitLines(JoinLines(lines) + "\n") == lines
    decreases |lines|
  {
    var line, rest := lines[0], lines[1..];
    if rest == [] {
      SplitOnlyLine(line);
    } else {
      SplitJoined(rest);
      JoinCons(line, rest);
      SplitFirstLine(line, JoinLines(rest) + "\n");
      assert lines == [line] + rest;
    }
  }

  lemma EntryLineTrimmed(k: string, v: string)
    requires GoodKey(k) && GoodValue(v)
    ensures var line := k + "=" + v;
      && Strip(line) == line && line != "" && line[0] != '#'
      && '=' in line && IndexOf(line, '=') == |k| && line[..|k|] == k && line[|k| + 1..] == v
  {
    var line := k + "=" + v;
    assert line[0] == k[0] && line[|line| - 1] == if v == "" then '=' else v[|v| - 1];
    StripTrims(line);
    assert line[..|k|] == k && line[|k|] == '=';
    IndexOfUnique(line, '=', |k|);
  }

  lemma ParseCleanLine(line: string, k: string, v: string, number: nat, values: Dict<string>)
    requires Strip(line) == line && line != "" && line[0] != '#' && '=' in line && IndexOf(line, '=') == |k|
    requires line[..|k|] == k && line[|k| + 1..] == v && k != "" && Strip(k) == k && Strip(v) == v
    ensures ParseLine(line, number, values) ==
            if HasKey(values, k) then Err(InvalidOrDuplicateKey(number)) else Ok(Put(values, k, v))
  {
  }

  lemma ParseEntry(k: string, v: string, number: nat, values: Dict<string>)
    requires GoodKey(k) && GoodValue(v) && !HasKey(values, k)
    ensures ParseLine(k + "=" + v, number, values) == Ok(values + [(k, v)])
  {
    EntryLineTrimmed(k, v);
    StripTrims(k);
    StripTrims(v);
    ParseCleanLine(k + "=" + v, k, v, number, values);
    PutNew(values, k, v);
  }

  lemma EntryLinesFrom(values: Dict<string>, done: nat)
    requires done < |values|
    ensures EntryLines(values)[done] == values[done].0 + "=" + values[done].1
    ensures EntryLines(values)[done..] == [EntryLines(values)[done]] + EntryLines(values)[done + 1..]
    ensures values[..done] + [(values[done].0, values[done].1)] == values[..done + 1]
  {
  }

  lemma EntryIsGood(values: Dict<string>, done: nat)
    requires Representable(values) && done < |values|
    ensures GoodKey(values[done].0) && GoodValue(values[done].1) && !HasKey(values[..done], values[done].0)
  {
  }

  lemma ParseCons(line: string, rest: seq<string>, number: nat, values: Dict<string>)
    ensures ParseLines([line] + rest, number, values) ==
            var r := ParseLine(line, number, values);
            if r.Err? then r else ParseLines(rest, number + 1, r.value)
  {
    assert ([line] + rest)[1..] == rest;
  }

  lemma {:induction false} ParseEntries(values: Dict<string>, done: nat, number: nat)
    requires Representable(values) && done <= |values|
    ensures ParseLines(EntryLines(values)[done..], number, values[..done]) == Ok(values)
    decreases |values| - done
  {
    if done < |values| {
      var (k, v) := values[done];
      EntryLinesFrom(values, done);
      EntryIsGood(values, done);
      ParseEntry(k, v, number, values[..done]);
      ParseCons(EntryLines(values)[done], EntryLines(values)[done + 1..], number, values[..done]);
      ParseEntries(values, done + 1, number + 1);
    } else {
      assert values[..done] == values;
    }
  }

  predicate Comment(line: string) {
    line != "" && line[0] == '#' && SingleLine(line)
  }

  lemma {:induction false} CommentsSkipped(lines: seq<string>, n: nat, k: nat)
    requires k <= n <= |lines| && forall i :: k <= i < n ==> Comment(lines[i])
    ensures ParseLines(lines[k..], k + 1, []) == ParseLines(lines[n..], n + 1, [])
    decreases n - k
  {
    if k < n {
      StripKeepsFirst(lines[k]);
      ParseLinesStep(lines, k, []);
      CommentsSkipped(lines, n, k + 1);
    }
  }

  lemma RenderedLinesSingle(header: seq<string>, values: Dict<string>)
    requires Representable(values) && forall i :: 0 <= i < |header| ==> Comment(header[i])
    ensures forall i :: 0 <= i < |header + EntryLines(values)| ==> SingleLine((header + EntryLines(values))[i])
  {
    var lines := header + EntryLines(values);
    forall i | 0 <= i < |lines| ensures SingleLine(lines[i]) {
      if i >= |header| {
        var (k, v) := values[i - |header|];
        assert SingleLine(k) && SingleLine(v) && lines[i] == k + "=" + v;
      }
    }
  }

  lemma EntriesParse(header: seq<string>, values: Dict<string>)
    requires Representable(values) && forall i :: 0 <= i < |header| ==> Comment(header[i])
    ensures ParseLines(header + EntryLines(values), 1, []) == Ok(values)
  {
    var lines := header + EntryLines(values);
    CommentsSkipped(lines, |header|, 0);
    assert lines[0..] == lines;
    assert lines[|header|..] == EntryLines(values)[0..];
    assert values[..0] == [];
    ParseEntries(values, 0, |header| + 1);
  }

  lemma EntriesSurvive(header: seq<string>, values: Dict<string>)
    requires Representable(values) && header != [] && forall i :: 0 <= i < |header| ==> Comment(header[i])
    ensures Parsed(JoinLines(header + EntryLines(values)) + "\n") == Ok(values)
  {
    var lines := header + EntryLines(values);
    RenderedLinesSingle(header, values);
    SplitJoined(lines);
    UniversalSameLines(JoinLines(lines) + "\n");
    EntriesParse(header, values);
  }

  lemma GeneratedIsComment()
    ensures Comment(GENERATED_LINE)
  {
  }

  lemma CommentContinued(start: string, end: string)
    requires Comment(start) && SingleLine(end)
    ensures Comment(start + end)
  {
  }

  lemma LocalOnlyStarts()
    ensures Comment(LOCAL_ONLY_START)
  {
  }

  lemma LocalOnlyEnds()
    ensures SingleLine(LOCAL_ONLY_END)
  {
  }

  lemma LocalOnlyIsComment()
    ensures Comment(LOCAL_ONLY_LINE)
  {
    LocalOnlyStarts();
    LocalOnlyEnds();
    CommentContinued(LOCAL_ONLY_START, LOCAL_ONLY_END);
  }

  lemma HeaderIsComments()
    ensures HEADER != [] && forall i :: 0 <= i < |HEADER| ==> Comment(HEADER[i])
  {
    GeneratedIsComment();
    LocalOnlyIsComment();
  }

  lemma RepresentableSurvives(values: Dict<string>)
    requires Representable(values)
    ensures Parsed(Render(values)) == Ok(values)
  {
    HeaderIsComments();
    EntriesSurvive(HEADER, values);
  }

  lemma {:induction false} LinesAreSingle(s: string)
    ensures forall i :: 0 <= i < |SplitLines(s)| ==> SingleLine(SplitLines(s)[i])
    decreases |s|
  {
    if s != "" {
      LinesAreSingle(s[FullLen(s)..]);
    }
  }

  lemma StripSingle(s: string)
    requires SingleLine(s)
    ensures SingleLine(Strip(s))
  {
    forall i | 0 <= i < |Strip(s)| ensures !IsLineBreak(Strip(s)[i]) {
      StripIsPart(s, Strip(s)[i]);
    }
  }

  lemma SplitEntryGood(line: string, i: nat)
    requires SingleLine(line) && line != "" && !IsSpace(line[0]) && line[0] != '#'
    requires i < |line| && line[i] == '=' && '=' !in line[..i]
    ensures Strip(line[..i]) != "" ==> GoodKey(Strip(line[..i]))
    ensures GoodValue(Strip(line[i + 1..]))
  {
    StripTrims(line[..i]);
    StripTrims(line[i + 1..]);
    StripSingle(line[..i]);
    StripSingle(line[i + 1..]);
    if '=' in Strip(line[..i]) {
      StripIsPart(line[..i], '=');
    }
    if i > 0 {
      StripKeepsFirst(line[..i]);
    }
  }

  lemma EntryAdded(values: Dict<string>, key: string, value: string)
    requires Representable(values) && GoodKey(key) && GoodValue(value) && !HasKey(values, key)
    ensures Representable(values + [(key, value)])
  {
  }

  lemma ParsedLineRepresentable(raw: string, number: nat, values: Dict<string>)
    requires SingleLine(raw) && Representable(values) && ParseLine(raw, number, values).Ok?
    ensures Representable(ParseLine(raw, number, values).value)
  {
    var line := Strip(raw);
    assert Trimmed(line) && SingleLine(line) by {
      StripTrims(raw);
      StripSingle(raw);
    }
    if line != "" && line[0] != '#' {
      var i := IndexOf(line, '=');
      var key, value := Strip(line[..i]), Strip(line[i + 1..]);
      SplitEntryGood(line, i);
      PutNew(values, key, value);
      EntryAdded(values, key, value);
    }
  }

  lemma {:induction false} ParsedLinesRepresentable(lines: seq<string>, number: nat, values: Dict<string>)
    requires (forall i :: 0 <= i < |lines| ==> SingleLine(lines[i])) && Representable(values)
    requires ParseLines(lines, number, values).Ok?
    ensures Representable(ParseLines(lines, number, values).value)
    decreases |lines|
  {
    if lines != [] {
      ParsedLineRepresentable(lines[0], number, values);
      ParsedLinesRepresentable(lines[1..], number + 1, ParseLine(lines[0], number, values).value);
    }
  }

  /** Whatever the parser accepts could have been rendered. */
  lemma ParsedRepresentable(text: string)
    requires Parsed(text).Ok?
    ensures Representable(Parsed(text).value)
  {
    LinesAreSingle(UniversalNewlines(text));
    ParsedLinesRepresentable(SplitLines(UniversalNewlines(text)), 1, []);
  }

  /** Rendering and parsing give back exactly the representable maps, and no others. */
  lemma RenderParseRoundTrip(values: Dict<string>)
    ensures Parsed(Render(values)) == Ok(values) <==> Representable(values)
  {
    if Representable(values) {
      RepresentableSurvives(values);
    }
    if Parsed(Render(values)).Ok? {
      ParsedRepresentable(Render(values));
    }
  }

  /** Rendering what was parsed normalises a file once and for all: the second parse reads the same values. */
  lemma ParseRenderParse(text: string)
    requires Parsed(text).Ok?
    ensures Parsed(Render(Parsed(text).value)) == Parsed(text)
  {
    ParsedRepresentable(text);
    RenderParseRoundTrip(Parsed(text).value);
  }

  // ---- The file, line by line ----

  /** A blank line or a comment. */
  predicate Skipped(line: string) {
    Strip(line) == "" || Strip(line)[0] == '#'
  }

  /** The line assigns `v` to `k`: what is before its first '=' and what is after it, each without the white space
      around it. */
  ghost predicate Assigns(line: string, k: string, v: string) {
    !Skipped(line) &&
    exists left, right :: Strip(line) == left + "=" + right && '=' !in left && Strip(left) == k && Strip(right) == v
  }

  lemma AssignsOnce(line: string, k: string, v: string, k': string, v': string)
    requires Assigns(line, k, v) && Assigns(line, k', v')
    ensures k == k' && v == v'
  {
    var core := Strip(line);
    var a, b :| core == a + "=" + b && '=' !in a && Strip(a) == k && Strip(b) == v;
    var a', b' :| core == a' + "=" + b' && '=' !in a' && Strip(a') == k' && Strip(b') == v';
    SplitAtFirst(core, a, b);
    SplitAtFirst(core, a', b');
  }

  lemma SplitAtFirst(core: string, a: string, b: string)
    requires core == a + "=" + b && '=' !in a
    ensures IndexOf(core, '=') == |a| && core[..|a|] == a && core[|a| + 1..] == b
  {
    assert core[..|a|] == a && core[|a|] == '=';
    IndexOfUnique(core, '=', |a|);
  }

  /** The entries of the first `n` lines, in order: `places` are the lines they come from, every other line is blank or
      a comment, no key is empty, and none comes twice. */
  ghost predicate Reads(lines: seq<string>, n: nat, values: Dict<string>, places: seq<nat>)
    requires n <= |lines|
  {
    && |places| == |values| && Distinct(values)
    && (forall i :: 0 <= i < |places| ==>
          places[i] < n && Assigns(lines[places[i]], values[i].0, values[i].1) && values[i].0 != "")
    && (forall i, j :: 0 <= i < j < |places| ==> places[i] < places[j])
    && forall m :: 0 <= m < n ==> m in places || Skipped(lines[m])
  }

  /** What is wrong with a line that the entries so far do not admit. */
  ghost predicate Wrong(line: string, number: nat, values: Dict<string>, e: ParseError) {
    match e
    case MissingEquals(at) => at == number && !Skipped(line) && '=' !in Strip(line)
    case InvalidOrDuplicateKey(at) =>
      at == number && exists k, v :: Assigns(line, k, v) && (k == "" || HasKey(values, k))
  }

  lemma LineAssigns(line: string)
    requires !Skipped(line) && '=' in Strip(line)
    ensures var core := Strip(line);
      var i := IndexOf(core, '=');
      i < |core| && Assigns(line, Strip(core[..i]), Strip(core[i + 1..]))
  {
    var core := Strip(line);
    var i := IndexOf(core, '=');
    assert core == core[..i] + "=" + core[i + 1..];
  }

  lemma ReadsOn(lines: seq<string>, n: nat, values: Dict<string>, places: seq<nat>, k: string, v: string)
    requires n < |lines| && Reads(lines, n, values, places)
    requires Assigns(lines[n], k, v) && k != "" && !HasKey(values, k)
    ensures Reads(lines, n + 1, values + [(k, v)], places + [n])
  {
    var more := places + [n];
    forall m | 0 <= m < n + 1 ensures m in more || Skipped(lines[m]) {
      assert m < n ==> m in places || Skipped(lines[m]);
      assert m == n ==> more[|places|] == n;
    }
  }

  lemma LineParses(line: string, number: nat, values: Dict<string>)
    ensures Skipped(line) ==> ParseLine(line, number, values) == Ok(values)
    ensures !Skipped(line) && '=' !in Strip(line) ==> ParseLine(line, number, values) == Err(MissingEquals(number))
    ensures !Skipped(line) && '=' in Strip(line) ==>
      exists k, v :: Assigns(line, k, v) &&
        ParseLine(line, number, values) ==
        if k == "" || HasKey(values, k) then Err(InvalidOrDuplicateKey(number)) else Ok(values + [(k, v)])
  {
    var core := Strip(line);
    if !Skipped(line) && '=' in core {
      LineAssigns(line);
      var i := IndexOf(core, '=');
      var k, v := Strip(core[..i]), Strip(core[i + 1..]);
      if !HasKey(values, k) {
        PutNew(values, k, v);
      }
      assert Assigns(line, k, v);
    }
  }

  lemma NextLine(lines: seq<string>, n: nat, values: Dict<string>, places: seq<nat>) returns (more: seq<nat>)
    requires n < |lines| && Reads(lines, n, values, places)
    ensures var r := ParseLine(lines[n], n + 1, values);
      if r.Ok? then Reads(lines, n + 1, r.value, more) else Wrong(lines[n], n + 1, values, r.error)
  {
    var line := lines[n];
    more := places;
    LineParses(line, n + 1, values);
    if !Skipped(line) && '=' in Strip(line) {
      var k, v :| Assigns(line, k, v) &&
        ParseLine(line, n + 1, values) ==
        if k == "" || HasKey(values, k) then Err(InvalidOrDuplicateKey(n + 1)) else Ok(values + [(k, v)]);
      if k != "" && !HasKey(values, k) {
        ReadsOn(lines, n, values, places, k, v);
        more := places + [n];
      }
    }
  }

  /** The parser, on every text: it reads the lines up to the first wrong one, and answers with their entries, or with
      what is wrong there. */
  lemma ParsedExactly(text: string) returns (n: nat, values: Dict<string>, places: seq<nat>)
    ensures var lines := SplitLines(text);
      && n <= |lines| && Reads(lines, n, values, places)
      && (n == |lines| ==> Parsed(text) == Ok(values))
      && (n < |lines| ==> Parsed(text).Err? && Wrong(lines[n], n + 1, values, Parsed(text).error))
  {
    var lines := SplitLines(text);
    UniversalSameLines(text);
    n, values, places := 0, [], [];
    assert lines[0..] == lines;
    while n < |lines|
      invariant n <= |lines| && Reads(lines, n, values, places)
      invariant ParseLines(lines[n..], n + 1, values) == Parsed(text)
    {
      ParseLinesStep(lines, n, values);
      var more := NextLine(lines, n, values, places);
      var r := ParseLine(lines[n], n + 1, values);
      if r.Err? {
        return;
      }
      n, values, places := n + 1, r.value, more;
    }
  }

  /** The entries as text: `key=value` and a newline each. */
  function EntryText(values: Dict<string>): string {
    if values == [] then "" else values[0].0 + "=" + values[0].1 + "\n" + EntryText(values[1..])
  }

  lemma {:induction false} JoinedEntries(values: Dict<string>)
    ensures (if values == [] then "" else JoinLines(EntryLines(values)) + "\n") == EntryText(values)
    decreases |values|
  {
    if |values| > 1 {
      JoinedEntries(values[1..]);
      assert EntryLines(values)[1..] == EntryLines(values[1..]);
    } else if |values| == 1 {
      assert values[1..] == [];
      assert JoinLines(EntryLines(values)) + "\n" == values[0].0 + "=" + values[0].1 + "\n" + "";
    }
  }

  /** The rendered file: the two comment lines, then the entries in order. */
  lemma RenderText(values: Dict<string>)
    ensures Render(values) ==
            "# Generated by scripts/generate_demo_env.py." + "\n" +
            ("# Local demo only. Do not reuse" + " these credentials in production.") + "\n" + EntryText(values)
  {
    var entries, g, l := EntryLines(values), GENERATED_LINE, LOCAL_ONLY_LINE;
    JoinedEntries(values);
    if values == [] {
      assert HEADER + entries == [g] + [l];
      JoinCons(g, [l]);
      assert JoinLines([l]) == l && l + "\n" + "" == l + "\n";
    } else {
      JoinCons(l, entries);
      JoinCons(g, [l] + entries);
      assert HEADER + entries == [g] + ([l] + entries);
    }
    assert JoinLines(HEADER + entries) + "\n" == g + "\n" + (l + "\n" + EntryText(values));
    assert g + "\n" + (l + "\n" + EntryText(values)) == g + "\n" + l + "\n" + EntryText(values);
  }
}
