/** The rename sweep of scripts/rename_to_nodyra.py: split into lines, leave exempt lines alone, apply three
    substring replacements to every other line, and join. */
module TextSweep {
  import opened PyStrings

  // ---- Where `Replace` writes ----

  /** `j` is one of the places where the left-to-right scan of `Replace` writes its replacement. */
  ghost predicate Hit(s: string, pat: string, j: int)
    requires pat != ""
    decreases |s|
  {
    |pat| <= |s| && 0 <= j &&
    if pat <= s then j == 0 || (|pat| <= j && Hit(s[|pat|..], pat, j - |pat|))
    else 1 <= j && Hit(s[1..], pat, j - 1)
  }

  ghost predicate Covers(s: string, pat: string, j: int, i: int)
    requires pat != ""
  {
    Hit(s, pat, j) && j <= i < j + |pat|
  }

  lemma {:induction false} ReplaceLength(s: string, pat: string, repl: string)
    requires pat != "" && |repl| == |pat|
    ensures |Replace(s, pat, repl)| == |s|
    decreases |s|
  {
    if |pat| <= |s| {
      if pat <= s {
        ReplaceLength(s[|pat|..], pat, repl);
      } else {
        ReplaceLength(s[1..], pat, repl);
      }
    }
  }

  /** An occurrence, seen from a later start. */
  lemma OccursShift(s: string, sub: string, i: int, step: nat)
    requires step <= |s| && step <= i
    ensures OccursAt(s, sub, i) <==> OccursAt(s[step..], sub, i - step)
  {
    if i <= |s| - |sub| {
      assert s[step..][i - step..i - step + |sub|] == s[i..i + |sub|];
    }
  }

  lemma {:induction false} HitOccurs(s: string, pat: string, j: int)
    requires pat != "" && Hit(s, pat, j)
    ensures OccursAt(s, pat, j)
    decreases |s|
  {
    var step := if pat <= s then |pat| else 1;
    if j >= step {
      HitOccurs(s[step..], pat, j - step);
      OccursShift(s, pat, j, step);
    } else {
      assert s[0..|pat|] == pat;
    }
  }

  lemma {:induction false} HitWritten(s: string, pat: string, repl: string, j: int)
    requires pat != "" && |repl| == |pat| && Hit(s, pat, j)
    ensures OccursAt(Replace(s, pat, repl), repl, j)
    decreases |s|
  {
    var r := Replace(s, pat, repl);
    var step := if pat <= s then |pat| else 1;
    var rest := Replace(s[step..], pat, repl);
    ReplaceLength(s, pat, repl);
    if j >= step {
      HitWritten(s[step..], pat, repl, j - step);
      assert r[step..] == rest;
      OccursShift(r, repl, j, step);
    } else {
      assert r == repl + rest;
      assert r[0..|repl|] == repl;
    }
  }

  lemma HitShape(s: string, pat: string, repl: string, j: int)
    requires pat != "" && |repl| == |pat| && Hit(s, pat, j)
    ensures OccursAt(s, pat, j) && OccursAt(Replace(s, pat, repl), repl, j)
  {
    HitOccurs(s, pat, j);
    HitWritten(s, pat, repl, j);
  }

  /** Every occurrence of the pattern meets a place the scan writes to. */
  lemma {:induction false} HitMeetsOccurrence(s: string, pat: string, i: int) returns (j: int)
    requires pat != "" && OccursAt(s, pat, i)
    ensures Covers(s, pat, j, i)
    decreases |s|
  {
    if pat <= s {
      if i < |pat| {
        j := 0;
      } else {
        OccursShift(s, pat, i, |pat|);
        j := HitMeetsOccurrence(s[|pat|..], pat, i - |pat|);
        j := j + |pat|;
      }
    } else {
      assert i != 0;
      OccursShift(s, pat, i, 1);
      j := HitMeetsOccurrence(s[1..], pat, i - 1);
      j := j + 1;
    }
  }

  lemma {:induction false} UntouchedOutsideHits(s: string, pat: string, repl: string, i: int)
    requires pat != "" && |repl| == |pat| && 0 <= i < |s|
    requires forall j :: !Covers(s, pat, j, i)
    ensures |Replace(s, pat, repl)| == |s| && Replace(s, pat, repl)[i] == s[i]
    decreases |s|
  {
    ReplaceLength(s, pat, repl);
    if |pat| <= |s| {
      var step := if pat <= s then |pat| else 1;
      var tail := s[step..];
      assert pat <= s ==> Hit(s, pat, 0);
      if i >= step {
        var k := i - step;
        forall j ensures !Covers(tail, pat, j, k) {
          assert Covers(tail, pat, j, k) ==> Covers(s, pat, j + step, i);
        }
        UntouchedOutsideHits(tail, pat, repl, k);
      } else if pat <= s {
        assert Covers(s, pat, 0, i);
      }
    }
  }

  // ---- Why the replacements neither create nor destroy each other's occurrences ----

  function Last(s: string): char
    requires s != ""
  {
    s[|s| - 1]
  }

  /** No occurrence of `pat` can share a character with a copy of `repl`. */
  predicate Incompatible(pat: string, repl: string) {
    pat != "" && repl != "" && Last(pat) !in repl && Last(repl) !in pat
  }

  /** No occurrence of `p` can share a character with a different occurrence of `q`. */
  predicate NeverOverlap(p: string, q: string) {
    p != "" && |p| == |q| && Last(p) !in q[..|q| - 1] && Last(q) !in p[..|p| - 1]
  }

  lemma OccurrenceChars(t: string, sub: string, i: int)
    requires OccursAt(t, sub, i)
    ensures forall k :: i <= k < i + |sub| ==> t[k] == sub[k - i]
  {
    forall k | i <= k < i + |sub| ensures t[k] == sub[k - i] {
      assert t[k] == t[i..i + |sub|][k - i];
    }
  }

  lemma IncompatibleApart(t: string, pat: string, i: int, repl: string, j: int)
    requires Incompatible(pat, repl) && OccursAt(t, pat, i) && OccursAt(t, repl, j)
    ensures i + |pat| <= j || j + |repl| <= i
  {
    OccurrenceChars(t, pat, i);
    OccurrenceChars(t, repl, j);
    assert t[i + |pat| - 1] !in repl && t[j + |repl| - 1] !in pat;
  }

  lemma OccurrencesApart(t: string, p: string, i: int, q: string, j: int)
    requires NeverOverlap(p, q) && OccursAt(t, p, i) && OccursAt(t, q, j)
    requires i != j || p != q
    ensures i + |p| <= j || j + |q| <= i
  {
    OccurrenceChars(t, p, i);
    OccurrenceChars(t, q, j);
    assert forall k :: 0 <= k < |q| - 1 ==> q[k] == q[..|q| - 1][k];
    assert forall k :: 0 <= k < |p| - 1 ==> p[k] == p[..|p| - 1][k];
    assert i == j ==> p == q;
  }

  /** What a replacement leaves behind: an occurrence of `pat` in the result was already there, in text the
      replacement did not touch. */
  lemma NoNewOccurrences(s: string, cut: string, repl: string, pat: string, i: int)
    requires |repl| == |cut| && cut != "" && Incompatible(pat, repl)
    requires OccursAt(Replace(s, cut, repl), pat, i)
    ensures OccursAt(s, pat, i) && pat != cut
  {
    var r := Replace(s, cut, repl);
    ReplaceLength(s, cut, repl);
    forall k, j | i <= k < i + |pat| && Covers(s, cut, j, k) ensures false {
      HitShape(s, cut, repl, j);
      IncompatibleApart(r, pat, i, repl, j);
    }
    forall k | i <= k < i + |pat| ensures r[k] == s[k] {
      UntouchedOutsideHits(s, cut, repl, k);
    }
    assert s[i..i + |pat|] == r[i..i + |pat|];
    if pat == cut {
      var j := HitMeetsOccurrence(s, cut, i);
    }
  }

  /** Text that no occurrence of the pattern touches survives the replacement. */
  lemma KeptText(s: string, cut: string, repl: string, kept: string, i: int)
    requires cut != "" && |repl| == |cut| && OccursAt(s, kept, i)
    requires forall j :: OccursAt(s, cut, j) ==> i + |kept| <= j || j + |cut| <= i
    ensures OccursAt(Replace(s, cut, repl), kept, i)
  {
    var r := Replace(s, cut, repl);
    ReplaceLength(s, cut, repl);
    forall k | i <= k < i + |kept| ensures r[k] == s[k] {
      OutsideOccurrencesKept(s, cut, repl, k);
    }
    assert r[i..i + |kept|] == s[i..i + |kept|];
  }

  /** Every occurrence of a pattern that cannot overlap itself is replaced. */
  lemma OccurrenceReplaced(s: string, pat: string, repl: string, i: int)
    requires |repl| == |pat| && NeverOverlap(pat, pat) && OccursAt(s, pat, i)
    ensures OccursAt(Replace(s, pat, repl), repl, i)
  {
    var j := HitMeetsOccurrence(s, pat, i);
    HitShape(s, pat, repl, j);
    if i != j {
      OccurrencesApart(s, pat, i, pat, j);
    }
  }

  /** Text outside every occurrence of the pattern is kept. */
  lemma OutsideOccurrencesKept(s: string, pat: string, repl: string, i: int)
    requires pat != "" && |repl| == |pat| && 0 <= i < |s|
    requires forall j :: OccursAt(s, pat, j) ==> !(j <= i < j + |pat|)
    ensures |Replace(s, pat, repl)| == |s| && Replace(s, pat, repl)[i] == s[i]
  {
    forall j ensures !Covers(s, pat, j, i) {
      if Hit(s, pat, j) {
        HitShape(s, pat, repl, j);
      }
    }
    UntouchedOutsideHits(s, pat, repl, i);
  }

  // ---- A table of replacements applied one after the other ----

  type Table = seq<(string, string)>

  function ApplyAll(line: string, table: Table): string
    requires forall row :: row in table ==> row.0 != ""
    decreases |table|
  {
    if table == [] then line else ApplyAll(Replace(line, table[0].0, table[0].1), table[1..])
  }

  /** Replacements keep lengths, and no spelling can share a character with a replacement or another spelling. */
  predicate Independent(table: Table) {
    forall a, b :: 0 <= a < |table| && 0 <= b < |table| ==>
      Clear(table[a], table[b]) && (a != b ==> table[a].0 != table[b].0)
  }

  predicate Clear(a: (string, string), b: (string, string)) {
    a.0 != "" && |a.0| == |a.1| && Incompatible(a.0, b.1) && NeverOverlap(a.0, b.0)
  }

  lemma IndependentTail(table: Table)
    requires Independent(table) && table != []
    ensures Independent(table[1..])
    ensures forall k :: 0 <= k < |table| - 1 ==> table[1..][k] == table[k + 1]
  {
  }

  /** Applying the table leaves an occurrence of `pat` only where it was before, and of no spelling it replaces. */
  lemma {:induction false} ApplyAllCreatesNothing(line: string, table: Table, pat: string, i: int)
    requires Independent(table) && (forall row :: row in table ==> Incompatible(pat, row.1))
    requires OccursAt(ApplyAll(line, table), pat, i)
    ensures OccursAt(line, pat, i)
    ensures forall row :: row in table ==> row.0 != pat
    decreases |table|
  {
    if table != [] {
      IndependentTail(table);
      var next := Replace(line, table[0].0, table[0].1);
      ApplyAllCreatesNothing(next, table[1..], pat, i);
      NoNewOccurrences(line, table[0].0, table[0].1, pat, i);
    }
  }

  /** A copy of a replacement, once written, survives the rest of the table. */
  lemma {:induction false} CopySurvives(line: string, table: Table, copy: string, i: int)
    requires Independent(table) && (forall row :: row in table ==> Incompatible(row.0, copy))
    requires OccursAt(line, copy, i)
    ensures OccursAt(ApplyAll(line, table), copy, i)
    decreases |table|
  {
    if table != [] {
      IndependentTail(table);
      var cut, repl := table[0].0, table[0].1;
      forall j | OccursAt(line, cut, j) ensures i + |copy| <= j || j + |cut| <= i {
        IncompatibleApart(line, cut, j, copy, i);
      }
      KeptText(line, cut, repl, copy, i);
      CopySurvives(Replace(line, cut, repl), table[1..], copy, i);
    }
  }

  /** Every occurrence of a spelling in the original line becomes its replacement. */
  lemma {:induction false} ApplyAllReplaces(line: string, table: Table, k: nat, i: int)
    requires Independent(table) && k < |table| && OccursAt(line, table[k].0, i)
    ensures OccursAt(ApplyAll(line, table), table[k].1, i)
    decreases |table|
  {
    IndependentTail(table);
    var cut, repl := table[0].0, table[0].1;
    if k == 0 {
      OccurrenceReplaced(line, cut, repl, i);
      CopySurvives(Replace(line, cut, repl), table[1..], repl, i);
    } else {
      forall j | OccursAt(line, cut, j) ensures i + |table[k].0| <= j || j + |cut| <= i {
        OccurrencesApart(line, table[k].0, i, cut, j);
      }
      KeptText(line, cut, repl, table[k].0, i);
      ApplyAllReplaces(Replace(line, cut, repl), table[1..], k - 1, i);
    }
  }

  ghost predicate InSpelling(line: string, table: Table, k: int, j: int, p: int) {
    0 <= k < |table| && OccursAt(line, table[k].0, j) && j <= p < j + |table[k].0|
  }

  /** Characters outside every spelling of the original line are kept. */
  lemma {:induction false} ApplyAllKeeps(line: string, table: Table, p: int)
    requires Independent(table) && 0 <= p < |line|
    requires forall k, j :: !InSpelling(line, table, k, j, p)
    ensures |ApplyAll(line, table)| == |line| && ApplyAll(line, table)[p] == line[p]
    decreases |table|
  {
    if table != [] {
      IndependentTail(table);
      var cut, repl := table[0].0, table[0].1;
      var next := Replace(line, cut, repl);
      forall j | OccursAt(line, cut, j) ensures !(j <= p < j + |cut|) {
        assert !InSpelling(line, table, 0, j, p);
      }
      OutsideOccurrencesKept(line, cut, repl, p);
      forall k, j ensures !InSpelling(next, table[1..], k, j, p) {
        assert !InSpelling(line, table, k + 1, j, p);
        if InSpelling(next, table[1..], k, j, p) {
          NoNewOccurrences(line, cut, repl, table[k + 1].0, j);
        }
      }
      ApplyAllKeeps(next, table[1..], p);
    }
  }

  lemma {:induction false} ApplyAllLength(line: string, table: Table)
    requires Independent(table)
    ensures |ApplyAll(line, table)| == |line|
    decreases |table|
  {
    if table != [] {
      IndependentTail(table);
      ReplaceLength(line, table[0].0, table[0].1);
      ApplyAllLength(Replace(line, table[0].0, table[0].1), table[1..]);
    }
  }

  // ---- The sweep itself ----

  const LOWER := ("noodle", "nodyra")
  const TITLE := ("Noodle", "Nodyra")
  const UPPER := ("NOODLE", "NODYRA")
  const REPLACEMENTS: Table := [LOWER, TITLE, UPPER]
  const EXEMPT_LINE_MARKERS: seq<string> :=
    ["previously developed under the working name", "NOODLE_", "noodle_token"]

  predicate Exempt(line: string) {
    exists marker :: marker in EXEMPT_LINE_MARKERS && Contains(line, marker)
  }

  function SweepLine(line: string): string {
    if Exempt(line) then line else ApplyAll(line, REPLACEMENTS)
  }

  function SweepLines(lines: seq<string>): seq<string> {
    seq(|lines|, i requires 0 <= i < |lines| => SweepLine(lines[i]))
  }

  /** The sweep as a function of the whole text. */
  function Swept(text: string): string {
    Concat(SweepLines(SplitLinesKeep(text)))
  }

  /** `_replace_text`, line by line and replacement by replacement. */
  method ReplaceText(text: string) returns (result: string)
    ensures result == Swept(text)
  {
    var lines := SplitLinesKeep(text);
    var rewritten: seq<string> := [];
    for i := 0 to |lines|
      invariant rewritten == SweepLines(lines[..i])
    {
      var line := lines[i];
      if Exempt(line) {
        rewritten := rewritten + [line];
        continue;
      }
      var newLine := line;
      for k := 0 to |REPLACEMENTS|
        invariant ApplyAll(newLine, REPLACEMENTS[k..]) == ApplyAll(line, REPLACEMENTS)
      {
        var (cut, repl) := REPLACEMENTS[k];
        newLine := Replace(newLine, cut, repl);
        assert REPLACEMENTS[k..][1..] == REPLACEMENTS[k + 1..];
      }
      rewritten := rewritten + [newLine];
    }
    assert lines[..|lines|] == lines;
    result := Concat(rewritten);
  }

  lemma LowerClearLower()
    ensures Clear(LOWER, LOWER)
  {
  }

  lemma LowerClearTitle()
    ensures Clear(LOWER, TITLE)
  {
  }

  lemma LowerClearUpper()
    ensures Clear(LOWER, UPPER)
  {
  }

  lemma TitleClearLower()
    ensures Clear(TITLE, LOWER)
  {
  }

  lemma TitleClearTitle()
    ensures Clear(TITLE, TITLE)
  {
  }

  lemma TitleClearUpper()
    ensures Clear(TITLE, UPPER)
  {
  }

  lemma UpperClearLower()
    ensures Clear(UPPER, LOWER)
  {
  }

  lemma UpperClearTitle()
    ensures Clear(UPPER, TITLE)
  {
  }

  lemma UpperClearUpper()
    ensures Clear(UPPER, UPPER)
  {
  }

  lemma ReplacementsIndependent()
    ensures Independent(REPLACEMENTS)
  {
    LowerClearLower(); LowerClearTitle(); LowerClearUpper();
    TitleClearLower(); TitleClearTitle(); TitleClearUpper();
    UpperClearLower(); UpperClearTitle(); UpperClearUpper();
    assert LOWER.0[0] == 'n' && TITLE.0[1] == 'o' && UPPER.0[0] == 'N' && UPPER.0[1] == 'O' && TITLE.0[0] == 'N';
  }

  /** One pass says it all: on a line that is not exempt, every occurrence of an old spelling in the ORIGINAL line
      becomes its replacement, every other character is kept, and no old spelling is left anywhere. */
  lemma SweepLineExact(line: string)
    ensures |SweepLine(line)| == |line|
    ensures Exempt(line) ==> SweepLine(line) == line
    ensures !Exempt(line) ==> forall k, j :: 0 <= k < |REPLACEMENTS| && OccursAt(line, REPLACEMENTS[k].0, j)
                                             ==> OccursAt(SweepLine(line), REPLACEMENTS[k].1, j)
    ensures forall p :: 0 <= p < |line| && SweepLine(line)[p] != line[p]
                        ==> exists k, j :: InSpelling(line, REPLACEMENTS, k, j, p)
    ensures !Exempt(line) ==> forall k :: 0 <= k < |REPLACEMENTS| ==> !Contains(SweepLine(line), REPLACEMENTS[k].0)
  {
    ReplacementsIndependent();
    ApplyAllLength(line, REPLACEMENTS);
    if !Exempt(line) {
      forall k, j | 0 <= k < |REPLACEMENTS| && OccursAt(line, REPLACEMENTS[k].0, j)
        ensures OccursAt(SweepLine(line), REPLACEMENTS[k].1, j)
      {
        ApplyAllReplaces(line, REPLACEMENTS, k, j);
      }
      forall p | 0 <= p < |line| && SweepLine(line)[p] != line[p]
        ensures exists k, j :: InSpelling(line, REPLACEMENTS, k, j, p)
      {
        if forall k, j :: !InSpelling(line, REPLACEMENTS, k, j, p) {
          ApplyAllKeeps(line, REPLACEMENTS, p);
        }
      }
      forall k, i | 0 <= k < |REPLACEMENTS| ensures !OccursAt(SweepLine(line), REPLACEMENTS[k].0, i) {
        assert REPLACEMENTS[k] in REPLACEMENTS;
        if OccursAt(SweepLine(line), REPLACEMENTS[k].0, i) {
          ApplyAllCreatesNothing(line, REPLACEMENTS, REPLACEMENTS[k].0, i);
        }
      }
    }
  }

  /** The same, spelling by spelling. */
  lemma SweepSpellings(line: string, j: int)
    ensures Exempt(line) <==>
            Contains(line, "previously developed under the working name") || Contains(line, "NOODLE_")
            || Contains(line, "noodle_token")
    ensures !Exempt(line) ==>
      && (OccursAt(line, "noodle", j) ==> OccursAt(SweepLine(line), "nodyra", j))
      && (OccursAt(line, "Noodle", j) ==> OccursAt(SweepLine(line), "Nodyra", j))
      && (OccursAt(line, "NOODLE", j) ==> OccursAt(SweepLine(line), "NODYRA", j))
      && !Contains(SweepLine(line), "noodle") && !Contains(SweepLine(line), "Noodle")
      && !Contains(SweepLine(line), "NOODLE")
  {
    SweepLineExact(line);
    assert REPLACEMENTS[0] == LOWER && REPLACEMENTS[1] == TITLE && REPLACEMENTS[2] == UPPER;
    var markers := EXEMPT_LINE_MARKERS;
    assert forall m :: m in markers <==> m == markers[0] || m == markers[1] || m == markers[2];
  }

  /** Sweeping changes a line exactly when it is not exempt and holds an old spelling. */
  lemma SweepLineFixpoint(line: string)
    ensures SweepLine(line) == line <==>
            Exempt(line) || forall k :: 0 <= k < |REPLACEMENTS| ==> !Contains(line, REPLACEMENTS[k].0)
  {
    SweepLineExact(line);
    if !Exempt(line) {
      if SweepLine(line) != line {
        var p :| 0 <= p < |line| && SweepLine(line)[p] != line[p];
        var k, j :| InSpelling(line, REPLACEMENTS, k, j, p);
        assert Contains(line, REPLACEMENTS[k].0);
      } else {
        forall k | 0 <= k < |REPLACEMENTS| ensures !Contains(line, REPLACEMENTS[k].0) {
          assert !Contains(SweepLine(line), REPLACEMENTS[k].0);
        }
      }
    }
  }

  lemma SweepLineIdempotent(line: string)
    ensures SweepLine(SweepLine(line)) == SweepLine(line)
  {
    SweepLineExact(line);
    SweepLineFixpoint(SweepLine(line));
  }

  // ---- Line boundaries ----

  /** The two texts differ only in characters that no line ends at. */
  ghost predicate SameBreaks(a: string, b: string) {
    |a| == |b| && forall i :: 0 <= i < |a| ==> a[i] == b[i] || (!IsLineBreak(a[i]) && !IsLineBreak(b[i]))
  }

  lemma {:induction false} SameBreaksSameLines(a: string, b: string)
    requires SameBreaks(a, b)
    ensures BodyLen(a) == BodyLen(b) && FullLen(a) == FullLen(b)
  {
    if a != "" && !IsLineBreak(a[0]) {
      SameBreaksSameLines(a[1..], b[1..]);
    }
  }

  lemma NoBreakInTable(k: nat)
    requires k < |REPLACEMENTS|
    ensures |REPLACEMENTS[k].0| == |REPLACEMENTS[k].1|
    ensures forall c :: c in REPLACEMENTS[k].0 || c in REPLACEMENTS[k].1 ==> !IsLineBreak(c)
  {
  }

  lemma SweepLineSameBreaks(line: string)
    ensures SameBreaks(line, SweepLine(line))
  {
    SweepLineExact(line);
    var r := SweepLine(line);
    forall p | 0 <= p < |line| && r[p] != line[p] ensures !IsLineBreak(line[p]) && !IsLineBreak(r[p]) {
      var k, j :| InSpelling(line, REPLACEMENTS, k, j, p);
      NoBreakInTable(k);
      assert !Exempt(line) && OccursAt(r, REPLACEMENTS[k].1, j);
      OccurrenceChars(line, REPLACEMENTS[k].0, j);
      OccurrenceChars(r, REPLACEMENTS[k].1, j);
    }
  }

  lemma SweepLinesCons(line: string, rest: seq<string>)
    ensures SweepLines([line] + rest) == [SweepLine(line)] + SweepLines(rest)
  {
  }

  lemma ConcatCons(line: string, rest: seq<string>)
    ensures Concat([line] + rest) == line + Concat(rest)
  {
    assert ([line] + rest)[1..] == rest;
  }

  /** The sweep takes the first line, sweeps it, and goes on with the rest. */
  lemma SweptFirst(text: string)
    requires text != ""
    ensures var n := FullLen(text);
      && Swept(text) == SweepLine(text[..n]) + Swept(text[n..])
      && SweepLines(SplitLinesKeep(text)) == [SweepLine(text[..n])] + SweepLines(SplitLinesKeep(text[n..]))
  {
    var n := FullLen(text);
    SweepLinesCons(text[..n], SplitLinesKeep(text[n..]));
    ConcatCons(SweepLine(text[..n]), SweepLines(SplitLinesKeep(text[n..])));
  }

  lemma SameBreaksConcat(text: string, n: nat, line: string, rest: string)
    requires n <= |text| && SameBreaks(text[..n], line) && SameBreaks(text[n..], rest)
    ensures SameBreaks(text, line + rest)
  {
    assert text == text[..n] + text[n..];
  }

  /** The sweep never moves, adds or removes a line break. */
  lemma {:induction false} SweptSameBreaks(text: string)
    ensures SameBreaks(text, Swept(text))
    decreases |text|
  {
    if text != "" {
      var n := FullLen(text);
      SweptFirst(text);
      SweepLineSameBreaks(text[..n]);
      SweptSameBreaks(text[n..]);
      SameBreaksConcat(text, n, SweepLine(text[..n]), Swept(text[n..]));
    }
  }

  /** A text made of a line as long as the first line it would be split at, and the rest. */
  lemma SplitsFirst(line: string, rest: string)
    requires line != "" && FullLen(line + rest) == |line|
    ensures SplitLinesKeep(line + rest) == [line] + SplitLinesKeep(rest)
  {
    assert (line + rest)[..|line|] == line && (line + rest)[|line|..] == rest;
  }

  /** The lines of the swept text are the swept lines. */
  lemma {:induction false} SweepKeepsLines(text: string)
    ensures SameBreaks(text, Swept(text))
    ensures SplitLinesKeep(Swept(text)) == SweepLines(SplitLinesKeep(text))
    decreases |text|
  {
    SweptSameBreaks(text);
    if text != "" {
      var line, rest := text[..FullLen(text)], text[FullLen(text)..];
      SweepKeepsLines(rest);
      SweptFirst(text);
      SameBreaksSameLines(text, Swept(text));
      SweepLineSameBreaks(line);
      SplitsFirst(SweepLine(line), Swept(rest));
    }
  }

  /** The script's promise: a second sweep changes nothing. */
  lemma SweepIdempotent(text: string)
    ensures Swept(Swept(text)) == Swept(text)
  {
    SweepKeepsLines(text);
    var lines := SplitLinesKeep(text);
    forall i | 0 <= i < |lines| ensures SweepLine(SweepLine(lines[i])) == SweepLine(lines[i]) {
      SweepLineIdempotent(lines[i]);
    }
    assert SweepLines(SweepLines(lines)) == SweepLines(lines);
  }

  /** `main` rewrites a file exactly when some line that is not exempt holds an old spelling. */
  lemma SweepRewritesIff(text: string)
    ensures Swept(text) != text <==>
            exists i, k :: 0 <= i < |SplitLinesKeep(text)| && 0 <= k < |REPLACEMENTS| &&
                           !Exempt(SplitLinesKeep(text)[i]) && Contains(SplitLinesKeep(text)[i], REPLACEMENTS[k].0)
  {
    SweepKeepsLines(text);
    var lines := SplitLinesKeep(text);
    forall i | 0 <= i < |lines|
      ensures SweepLines(lines)[i] == lines[i] <==>
              Exempt(lines[i]) || forall k :: 0 <= k < |REPLACEMENTS| ==> !Contains(lines[i], REPLACEMENTS[k].0)
    {
      SweepLineFixpoint(lines[i]);
    }
    if SweepLines(lines) == lines {
      ConcatSplitLinesKeep(text);
    }
  }
}
