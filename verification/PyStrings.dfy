/** The Python string operations the scripts and parsers are written with, restated on `string`. */
module PyStrings {

  /** The characters `str.splitlines` ends a line at ("\r\n" counts as one break). */
  predicate IsLineBreak(c: char) {
    c == '\n' || c == '\U{0B}' || c == '\U{0C}' || c == '\r' ||
    '\U{1C}' <= c <= '\U{1E}' || c == '\U{85}' || c == '\U{2028}' || c == '\U{2029}'
  }

  /** The characters `str.strip` removes. */
  predicate IsSpace(c: char) {
    '\t' <= c <= '\r' || '\U{1C}' <= c <= ' ' || c == '\U{85}' || c == '\U{A0}' || c == '\U{1680}' ||
    '\U{2000}' <= c <= '\U{200A}' || c == '\U{2028}' || c == '\U{2029}' || c == '\U{202F}' ||
    c == '\U{205F}' || c == '\U{3000}'
  }

  /** The two tables, character by character. */
  lemma CharacterTables(c: char)
    ensures IsLineBreak(c) <==>
            c in {'\n', '\U{0B}', '\U{0C}', '\r', '\U{1C}', '\U{1D}', '\U{1E}', '\U{85}', '\U{2028}', '\U{2029}'}
    ensures IsSpace(c) <==>
            c in {'\t', '\n', '\U{0B}', '\U{0C}', '\r', '\U{1C}', '\U{1D}', '\U{1E}', '\U{1F}', ' ', '\U{85}', '\U{A0}',
                  '\U{1680}', '\U{2000}', '\U{2001}', '\U{2002}', '\U{2003}', '\U{2004}', '\U{2005}', '\U{2006}',
                  '\U{2007}', '\U{2008}', '\U{2009}', '\U{200A}', '\U{2028}', '\U{2029}', '\U{202F}', '\U{205F}',
                  '\U{3000}'}
  {
  }

  // ---- Joining and splitting lines ----

  function Concat(parts: seq<string>): string {
    if parts == [] then "" else parts[0] + Concat(parts[1..])
  }

  /** Length of the first line of `s` without its line break. */
  function BodyLen(s: string): (n: nat)
    ensures n <= |s|
    ensures forall i :: 0 <= i < n ==> !IsLineBreak(s[i])
    ensures n < |s| ==> IsLineBreak(s[n])
  {
    if s == "" || IsLineBreak(s[0]) then 0 else 1 + BodyLen(s[1..])
  }

  /** Length of the first line of `s` with its line break. */
  function FullLen(s: string): (n: nat)
    ensures BodyLen(s) <= n <= |s|
    ensures s != "" ==> n > 0
  {
    var b := BodyLen(s);
    if b == |s| then b
    else if s[b] == '\r' && b + 1 < |s| && s[b + 1] == '\n' then b + 2
    else b + 1
  }

  /** `s.splitlines(keepends=True)` */
  function SplitLinesKeep(s: string): seq<string> {
    if s == "" then [] else [s[..FullLen(s)]] + SplitLinesKeep(s[FullLen(s)..])
  }

  /** `s.splitlines()` */
  function SplitLines(s: string): seq<string> {
    if s == "" then [] else [s[..BodyLen(s)]] + SplitLines(s[FullLen(s)..])
  }

  lemma {:induction false} ConcatSplitLinesKeep(s: string)
    ensures Concat(SplitLinesKeep(s)) == s
  {
    if s != "" {
      ConcatSplitLinesKeep(s[FullLen(s)..]);
      assert s == s[..FullLen(s)] + s[FullLen(s)..];
    }
  }

  /** One line with its break: nothing before its end is a break, but for the "\r" of "\r\n". */
  predicate IsLine(line: string) {
    line != "" &&
    forall k :: 0 <= k < |line| - 1 ==>
      !IsLineBreak(line[k]) || (k == |line| - 2 && line[k] == '\r' && line[k + 1] == '\n')
  }

  /** The first line ends where the text says: at a break, which is never half of a "\r\n", or at the end. */
  lemma FirstLineExact(s: string)
    requires s != ""
    ensures var n := FullLen(s);
      && IsLine(s[..n]) && (n < |s| ==> IsLineBreak(s[n - 1]))
      && (n < |s| && s[n - 1] == '\r' ==> s[n] != '\n')
  {
  }

  /** Each is one line, all but the last end in a break, and no "\r\n" is torn apart. */
  ghost predicate Cut(lines: seq<string>) {
    && (forall i :: 0 <= i < |lines| ==> IsLine(lines[i]))
    && forall i, j :: 0 <= i < j == i + 1 < |lines| ==> Follows(lines[i], lines[j])
  }

  predicate Follows(line: string, next: string)
    requires line != "" && next != ""
  {
    IsLineBreak(line[|line| - 1]) && (line[|line| - 1] == '\r' ==> next[0] != '\n')
  }

  lemma CutCons(line: string, rest: seq<string>)
    requires IsLine(line) && Cut(rest) && (rest != [] ==> Follows(line, rest[0]))
    ensures Cut([line] + rest)
  {
    var lines := [line] + rest;
    forall i, j | 0 <= i < j == i + 1 < |lines| ensures Follows(lines[i], lines[j]) {
      assert i > 0 ==> lines[i] == rest[i - 1] && lines[j] == rest[j - 1];
    }
  }

  lemma FirstOfLines(s: string)
    requires s != ""
    ensures SplitLinesKeep(s) != [] && SplitLinesKeep(s)[0] == s[..FullLen(s)]
  {
  }

  /** `splitlines` cuts a text into its lines, and cuts it nowhere else: joined they are the text again. */
  lemma {:induction false} LinesExact(s: string)
    ensures Concat(SplitLinesKeep(s)) == s && Cut(SplitLinesKeep(s))
    decreases |s|
  {
    ConcatSplitLinesKeep(s);
    if s != "" {
      var n := FullLen(s);
      var line, tail := s[..n], s[n..];
      FirstLineExact(s);
      LinesExact(tail);
      if tail != "" {
        FirstOfLines(tail);
      }
      CutCons(line, SplitLinesKeep(tail));
    }
  }

  /** A break: "\r\n" or one character. */
  predicate IsBreak(b: string) {
    b == "\r\n" || (|b| == 1 && IsLineBreak(b[0]))
  }

  /** The line without its break. */
  predicate Bare(line: string, bare: string) {
    bare <= line && (forall k :: 0 <= k < |bare| ==> !IsLineBreak(bare[k]))
    && (line[|bare|..] == "" || IsBreak(line[|bare|..]))
  }

  lemma FirstBare(s: string)
    requires s != ""
    ensures Bare(s[..FullLen(s)], s[..BodyLen(s)])
  {
    var b, n := BodyLen(s), FullLen(s);
    assert s[..b] <= s[..n] && s[..n][b..] == s[b..n];
    if n == b + 2 {
      assert s[b..n] == "\r\n";
    }
  }

  ghost predicate AllBare(lines: seq<string>, bare: seq<string>) {
    |bare| == |lines| && forall i :: 0 <= i < |lines| ==> Bare(lines[i], bare[i])
  }

  lemma BareCons(line: string, bare: string, lines: seq<string>, bares: seq<string>)
    requires Bare(line, bare) && AllBare(lines, bares)
    ensures AllBare([line] + lines, [bare] + bares)
  {
  }

  /** Without `keepends` the same lines lose their breaks, and nothing else. */
  lemma {:induction false} LinesWithoutBreaks(s: string)
    ensures AllBare(SplitLinesKeep(s), SplitLines(s))
    decreases |s|
  {
    if s != "" {
      var tail := s[FullLen(s)..];
      FirstBare(s);
      LinesWithoutBreaks(tail);
      BareCons(s[..FullLen(s)], s[..BodyLen(s)], SplitLinesKeep(tail), SplitLines(tail));
    }
  }

  /** The first index of `c` in `s`, or `|s|`. */
  function IndexOf(s: string, c: char): (i: nat)
    ensures i <= |s|
    ensures c !in s[..i]
    ensures i < |s| ==> s[i] == c
    ensures c !in s ==> i == |s|
  {
    if s == "" || s[0] == c then 0 else 1 + IndexOf(s[1..], c)
  }

  lemma {:induction false} IndexOfUnique(s: string, c: char, i: nat)
    requires i < |s| && s[i] == c && c !in s[..i]
    ensures IndexOf(s, c) == i
  {
  }

  /** `s.split(c)` for a one-character separator. */
  function SplitOn(s: string, c: char): seq<string> {
    var i := IndexOf(s, c);
    if i == |s| then [s] else [s[..i]] + SplitOn(s[i + 1..], c)
  }

  function JoinWith(parts: seq<string>, c: char): string {
    if parts == [] then "" else if |parts| == 1 then parts[0] else parts[0] + [c] + JoinWith(parts[1..], c)
  }

  lemma JoinWithCons(part: string, parts: seq<string>, c: char)
    requires parts != []
    ensures JoinWith([part] + parts, c) == part + [c] + JoinWith(parts, c)
  {
    assert ([part] + parts)[1..] == parts;
  }

  predicate Free(parts: seq<string>, c: char) {
    forall i :: 0 <= i < |parts| ==> c !in parts[i]
  }

  /** The parts hold no separator, and joined with it they are the string: no other list of parts does. */
  predicate Separates(parts: seq<string>, s: string, c: char) {
    parts != [] && Free(parts, c) && JoinWith(parts, c) == s
  }

  lemma SeparatesCons(part: string, parts: seq<string>, tail: string, c: char)
    requires c !in part && Separates(parts, tail, c)
    ensures Separates([part] + parts, part + [c] + tail, c)
  {
    JoinWithCons(part, parts, c);
  }

  lemma SliceAt(s: string, i: nat)
    requires i < |s|
    ensures s == s[..i] + [s[i]] + s[i + 1..]
  {
  }

  lemma SplitOnFirst(s: string, c: char)
    ensures var i := IndexOf(s, c);
      if i == |s| then SplitOn(s, c) == [s] else SplitOn(s, c) == [s[..i]] + SplitOn(s[i + 1..], c)
  {
  }

  /** `split` finds them. */
  lemma {:induction false} SplitOnExact(s: string, c: char)
    ensures Separates(SplitOn(s, c), s, c)
    decreases |s|
  {
    var i := IndexOf(s, c);
    SplitOnFirst(s, c);
    if i < |s| {
      SliceAt(s, i);
      SplitOnExact(s[i + 1..], c);
      SeparatesCons(s[..i], SplitOn(s[i + 1..], c), s[i + 1..], c);
    }
  }

  // ---- strip ----

  function LStrip(s: string): string {
    if s != "" && IsSpace(s[0]) then LStrip(s[1..]) else s
  }

  function RStrip(s: string): string {
    if s != "" && IsSpace(s[|s| - 1]) then RStrip(s[..|s| - 1]) else s
  }

  /** `s.strip()` */
  function Strip(s: string): string {
    RStrip(LStrip(s))
  }

  /** No white space at either end. */
  predicate Trimmed(s: string) {
    s == "" || (!IsSpace(s[0]) && !IsSpace(s[|s| - 1]))
  }

  lemma {:induction false} LStripTrims(s: string)
    ensures LStrip(s) == "" || !IsSpace(LStrip(s)[0])
    ensures |LStrip(s)| == |s| ==> LStrip(s) == s
    ensures |LStrip(s)| <= |s|
  {
    if s != "" && IsSpace(s[0]) {
      LStripTrims(s[1..]);
    }
  }

  lemma {:induction false} RStripTrims(s: string)
    ensures RStrip(s) == "" || !IsSpace(RStrip(s)[|RStrip(s)| - 1])
    ensures |RStrip(s)| == |s| ==> RStrip(s) == s
    ensures |RStrip(s)| <= |s|
    ensures RStrip(s) != "" ==> RStrip(s)[0] == s[0]
  {
    if s != "" && IsSpace(s[|s| - 1]) {
      RStripTrims(s[..|s| - 1]);
    }
  }

  /** `strip` returns a trimmed string, and leaves exactly the trimmed strings alone. */
  lemma StripTrims(s: string)
    ensures Trimmed(Strip(s))
    ensures Strip(s) == s <==> Trimmed(s)
  {
    LStripTrims(s);
    RStripTrims(LStrip(s));
  }

  predicate Blank(s: string) {
    forall i :: 0 <= i < |s| ==> IsSpace(s[i])
  }

  lemma {:induction false} LStripCuts(s: string) returns (a: string)
    ensures s == a + LStrip(s) && Blank(a)
  {
    if s != "" && IsSpace(s[0]) {
      a := LStripCuts(s[1..]);
      assert s == [s[0]] + s[1..];
      a := [s[0]] + a;
    } else {
      a := "";
    }
  }

  lemma {:induction false} RStripCuts(s: string) returns (b: string)
    ensures s == RStrip(s) + b && Blank(b)
  {
    if s != "" && IsSpace(s[|s| - 1]) {
      b := RStripCuts(s[..|s| - 1]);
      assert s == s[..|s| - 1] + [s[|s| - 1]];
      b := b + [s[|s| - 1]];
    } else {
      b := "";
    }
  }

  /** `strip` cuts white space off the two ends, and nothing else. */
  lemma StripCuts(s: string) returns (a: string, b: string)
    ensures s == a + Strip(s) + b && Blank(a) && Blank(b)
  {
    a := LStripCuts(s);
    b := RStripCuts(LStrip(s));
    assert a + (Strip(s) + b) == a + Strip(s) + b;
  }

  lemma DropFirst(a: string, t: string)
    requires a != ""
    ensures a + t != "" && (a + t)[0] == a[0] && (a + t)[1..] == a[1..] + t
  {
  }

  lemma DropLast(t: string, b: string)
    requires b != ""
    ensures t + b != "" && (t + b)[|t + b| - 1] == b[|b| - 1] && (t + b)[..|t + b| - 1] == t + b[..|b| - 1]
  {
  }

  lemma {:induction false} LStripSkips(a: string, t: string)
    requires Blank(a) && (t == "" || !IsSpace(t[0]))
    ensures LStrip(a + t) == t
  {
    if a == "" {
      assert a + t == t;
    } else {
      DropFirst(a, t);
      LStripSkips(a[1..], t);
    }
  }

  lemma {:induction false} RStripSkips(t: string, b: string)
    requires Blank(b) && (t == "" || !IsSpace(t[|t| - 1]))
    ensures RStrip(t + b) == t
    decreases |b|
  {
    if b == "" {
      assert t + b == t;
    } else {
      DropLast(t, b);
      RStripSkips(t, b[..|b| - 1]);
    }
  }

  /** Whatever white space stands around it, the trimmed part comes back; from white space alone comes nothing. */
  lemma StripOf(a: string, o: string, b: string)
    requires Blank(a) && Trimmed(o) && Blank(b)
    ensures Strip(a + o + b) == o
  {
    if o == "" {
      assert a + o + b == (a + b) + "";
      LStripSkips(a + b, "");
    } else {
      assert a + o + b == a + (o + b);
      LStripSkips(a, o + b);
      RStripSkips(o, b);
    }
  }

  lemma {:induction false} LStripIsPart(s: string, c: char)
    requires c in LStrip(s)
    ensures c in s
  {
    if s != "" && IsSpace(s[0]) {
      LStripIsPart(s[1..], c);
    }
  }

  lemma {:induction false} RStripIsPart(s: string, c: char)
    requires c in RStrip(s)
    ensures c in s
  {
    if s != "" && IsSpace(s[|s| - 1]) {
      RStripIsPart(s[..|s| - 1], c);
    }
  }

  lemma StripIsPart(s: string, c: char)
    requires c in Strip(s)
    ensures c in s
  {
    RStripIsPart(LStrip(s), c);
    LStripIsPart(s, c);
  }

  lemma {:induction false} RStripKeepsFirst(s: string)
    requires s != "" && !IsSpace(s[0])
    ensures RStrip(s) != "" && RStrip(s)[0] == s[0]
  {
    if IsSpace(s[|s| - 1]) {
      assert |s| > 1;
      RStripKeepsFirst(s[..|s| - 1]);
    }
  }

  lemma StripKeepsFirst(s: string)
    requires s != "" && !IsSpace(s[0])
    ensures Strip(s) != "" && Strip(s)[0] == s[0]
  {
    RStripKeepsFirst(s);
  }

  // ---- replace ----

  predicate OccursAt(s: string, sub: string, i: int) {
    0 <= i <= |s| - |sub| && s[i..i + |sub|] == sub
  }

  /** `sub in s` */
  predicate Contains(s: string, sub: string) {
    exists i :: 0 <= i <= |s| - |sub| && OccursAt(s, sub, i)
  }

  /** `s.replace(pat, repl)`: left to right, never inside text it has just written. */
  function Replace(s: string, pat: string, repl: string): string
    requires pat != ""
    decreases |s|
  {
    if |s| < |pat| then s
    else if pat <= s then repl + Replace(s[|pat|..], pat, repl)
    else [s[0]] + Replace(s[1..], pat, repl)
  }
}
