/** The GitHub Actions message escaping of scripts/report_flaky_tests.py: three replacements in a row. */
module WorkflowCommand {
  import opened PyStrings

  /** `value.replace("%", "%25").replace("\r", "%0D").replace("\n", "%0A")` */
  function GithubEscape(value: string): string {
    Replace(Replace(Replace(value, "%", "%25"), "\r", "%0D"), "\n", "%0A")
  }

  /** The same encoding read one character at a time. */
  function EscapeChar(c: char): string {
    match c
    case '%' => "%25"
    case '\r' => "%0D"
    case '\n' => "%0A"
    case _ => [c]
  }

  function EscapeEach(s: string): string {
    if s == "" then "" else EscapeChar(s[0]) + EscapeEach(s[1..])
  }

  /** The reader's side: each escape stands for its character, everything else for itself. */
  function Unescape(t: string): string
    decreases |t|
  {
    if t == "" then ""
    else if "%25" <= t then "%" + Unescape(t[3..])
    else if "%0D" <= t then "\r" + Unescape(t[3..])
    else if "%0A" <= t then "\n" + Unescape(t[3..])
    else [t[0]] + Unescape(t[1..])
  }

  /** A message in which only the three escapes use '%' and no raw line break is left. */
  predicate IsEscaped(t: string)
    decreases |t|
  {
    t == "" ||
    if "%25" <= t || "%0D" <= t || "%0A" <= t then IsEscaped(t[3..])
    else t[0] != '%' && t[0] != '\r' && t[0] != '\n' && IsEscaped(t[1..])
  }

  lemma ReplaceCharStep(s: string, c: char, repl: string)
    requires s != ""
    ensures Replace(s, [c], repl) == (if s[0] == c then repl else [s[0]]) + Replace(s[1..], [c], repl)
  {
    if s[0] == c {
      assert s[..1] == [c];
      assert [c] <= s;
    } else {
      assert [c][0] != s[0];
      assert !([c] <= s);
    }
  }

  lemma ReplaceEmpty(c: char, repl: string)
    ensures Replace("", [c], repl) == ""
  {
  }

  lemma Regroup(a: string, b: string, c: string)
    ensures (a + b) + c == a + (b + c)
  {
  }

  lemma ReplaceCharFirst(d: char, s: string, c: char, repl: string)
    ensures Replace([d] + s, [c], repl) == (if d == c then repl else [d]) + Replace(s, [c], repl)
  {
    var t := [d] + s;
    ReplaceCharStep(t, c, repl);
    assert t[1..] == s;
  }

  lemma {:induction false} ReplaceCharConcat(a: string, b: string, c: char, repl: string)
    ensures Replace(a + b, [c], repl) == Replace(a, [c], repl) + Replace(b, [c], repl)
  {
    if a == "" {
      assert a + b == b;
      ReplaceEmpty(c, repl);
    } else {
      var d, s := a[0], a[1..];
      var head := if d == c then repl else [d];
      ReplaceCharConcat(s, b, c, repl);
      ReplaceCharFirst(d, s, c, repl);
      ReplaceCharFirst(d, s + b, c, repl);
      assert a == [d] + s;
      Regroup([d], s, b);
      Regroup(head, Replace(s, [c], repl), Replace(b, [c], repl));
    }
  }

  lemma ReplaceCharOne(d: char, c: char, repl: string)
    ensures Replace([d], [c], repl) == if d == c then repl else [d]
  {
    ReplaceCharStep([d], c, repl);
  }

  lemma {:induction false} ReplaceAbsentChar(s: string, c: char, repl: string)
    requires c !in s
    ensures Replace(s, [c], repl) == s
  {
    if s != "" {
      ReplaceCharStep(s, c, repl);
      ReplaceAbsentChar(s[1..], c, repl);
    }
  }

  /** Three passes over the whole string are one pass over its characters. */
  lemma {:induction false} EscapeIsOnePass(s: string)
    ensures GithubEscape(s) == EscapeEach(s)
  {
    if s != "" {
      var c, rest := [s[0]], s[1..];
      assert s == c + rest;
      var r1, r2 := Replace(rest, "%", "%25"), Replace(Replace(rest, "%", "%25"), "\r", "%0D");
      ReplaceCharConcat(c, rest, '%', "%25");
      ReplaceCharOne(s[0], '%', "%25");
      var c1 := Replace(c, "%", "%25");
      ReplaceCharConcat(c1, r1, '\r', "%0D");
      var c2 := Replace(c1, "\r", "%0D");
      ReplaceCharConcat(c2, r2, '\n', "%0A");
      assert Replace(c2, "\n", "%0A") == EscapeChar(s[0]) by {
        if s[0] == '%' {
          ReplaceAbsentChar("%25", '\r', "%0D");
          ReplaceAbsentChar("%25", '\n', "%0A");
        } else {
          ReplaceCharOne(s[0], '\r', "%0D");
          if s[0] == '\r' {
            ReplaceAbsentChar("%0D", '\n', "%0A");
          } else {
            ReplaceCharOne(s[0], '\n', "%0A");
          }
        }
      }
      EscapeIsOnePass(rest);
    }
  }

  lemma {:induction false} EscapeEachInverse(s: string)
    ensures Unescape(EscapeEach(s)) == s && IsEscaped(EscapeEach(s))
  {
    if s != "" {
      EscapeEachInverse(s[1..]);
      var e, rest := EscapeChar(s[0]), EscapeEach(s[1..]);
      var t := e + rest;
      assert t[|e|..] == rest;
      if |e| == 3 {
        assert e <= t && t[..3] == e && t[1] == e[1] && t[2] == e[2];
        assert "%25" <= t <==> s[0] == '%';
        assert "%0D" <= t <==> s[0] == '\r';
        assert "%0A" <= t <==> s[0] == '\n';
        assert Unescape(t) == [s[0]] + Unescape(rest);
      } else {
        assert t[0] == s[0] != '%';
        assert !("%25" <= t) && !("%0D" <= t) && !("%0A" <= t);
      }
    }
  }

  lemma {:induction false} UnescapeInverse(t: string)
    requires IsEscaped(t)
    ensures EscapeEach(Unescape(t)) == t
    decreases |t|
  {
    if t != "" {
      var n := if "%25" <= t || "%0D" <= t || "%0A" <= t then 3 else 1;
      UnescapeInverse(t[n..]);
      assert t == t[..n] + t[n..];
      assert n == 1 ==> t[..1] == [t[0]];
    }
  }

  lemma {:induction false} EscapedHasNoBreak(t: string)
    requires IsEscaped(t)
    ensures '\r' !in t && '\n' !in t
    decreases |t|
  {
    if t != "" {
      var n := if "%25" <= t || "%0D" <= t || "%0A" <= t then 3 else 1;
      EscapedHasNoBreak(t[n..]);
      assert t == t[..n] + t[n..];
    }
  }

  /** Escaping is a bijection between all strings and the well-formed messages, and no message holds a line break
      that would end the workflow command early. */
  lemma GithubEscapeBijective(s: string, t: string)
    ensures IsEscaped(GithubEscape(s)) && '\r' !in GithubEscape(s) && '\n' !in GithubEscape(s)
    ensures Unescape(GithubEscape(s)) == s
    ensures IsEscaped(t) <==> GithubEscape(Unescape(t)) == t
  {
    EscapeIsOnePass(s);
    EscapeEachInverse(s);
    EscapedHasNoBreak(GithubEscape(s));
    EscapeIsOnePass(Unescape(t));
    EscapeEachInverse(Unescape(t));
    if IsEscaped(t) {
      UnescapeInverse(t);
    }
  }

  lemma GithubEscapeInjective(a: string, b: string)
    requires GithubEscape(a) == GithubEscape(b)
    ensures a == b
  {
    GithubEscapeBijective(a, "");
    GithubEscapeBijective(b, "");
  }
}
