/** The canary gate of scripts/evaluate_rollout.py: halt when one signal is breached in every recent window. */
module Rollout {
  import opened Prelude

  datatype Comparison = Comparison(canary: real, stable: real)

  /** One window's signals; absent numbers read as 0, and `passes` are the two pass flags that are exactly True. */
  datatype Signals = Signals(comparisons: map<string, Comparison>, workerChurn: real, readinessMinutes: real,
                             passes: set<string>)

  datatype Window = Window(signals: Option<Signals>)

  datatype GateError = NoSignals | MissingComparison(name: string) | Negative(name: string) | TooFewWindows | NoWindows

  const CEILINGS: seq<(string, real)> := [
    ("api_5xx_ratio", 0.01), ("run_error_ratio", 0.05), ("queue_p95_seconds", 60.0), ("artifact_failure_ratio", 0.005)
  ]
  const CHURN := "worker_churn_per_replica_15m"
  const READINESS := "readiness_failure_minutes"
  const PASSES: set<string> := {"browser_smoke_pass", "bundle_budget_pass"}

  /** `_relative_or_absolute` */
  predicate RelativeOrAbsolute(canary: real, stable: real, ceiling: real) {
    canary > ceiling || (stable > 0.0 && canary > stable * 2.0)
  }

  /** The comparisons in order: the first that is missing or negative is an error. */
  function BreachedComparisons(s: Signals, ceilings: seq<(string, real)>): Result<set<string>, GateError> {
    if ceilings == [] then Ok({})
    else
      var n := |ceilings| - 1;
      var (name, ceiling) := ceilings[n];
      var before := BreachedComparisons(s, ceilings[..n]);
      if before.Err? then before
      else if name !in s.comparisons then Err(MissingComparison(name))
      else
        var c := s.comparisons[name];
        if c.canary < 0.0 || c.stable < 0.0 then Err(Negative(name))
        else if RelativeOrAbsolute(c.canary, c.stable, ceiling) then Ok(before.value + {name})
        else before
  }

  function BreachedOthers(s: Signals): set<string> {
    (if s.workerChurn > 3.0 then {CHURN} else {}) + (if s.readinessMinutes > 5.0 then {READINESS} else {})
    + (PASSES - s.passes)
  }

  function Breached(w: Window): Result<set<string>, GateError> {
    if w.signals.None? then Err(NoSignals)
    else
      var r := BreachedComparisons(w.signals.value, CEILINGS);
      if r.Err? then r else Ok(r.value + BreachedOthers(w.signals.value))
  }

  function Names(list: seq<string>): set<string> {
    set name | name in list
  }

  lemma NamesSnoc(list: seq<string>, name: string)
    ensures Names([]) == {} && Names(list + [name]) == Names(list) + {name}
  {
  }

  /** `breached_signals`, up to the order of the names. */
  method BreachedSignals(w: Window) returns (result: Result<seq<string>, GateError>)
    ensures result.Err? ==> Breached(w) == Err(result.error)
    ensures result.Ok? ==> Breached(w) == Ok(Names(result.value))
  {
    if w.signals.None? {
      return Err(NoSignals);
    }
    var s := w.signals.value;
    var breached: seq<string> := [];
    NamesSnoc([], "");
    for i := 0 to |CEILINGS|
      invariant BreachedComparisons(s, CEILINGS[..i]) == Ok(Names(breached))
    {
      var (name, ceiling) := CEILINGS[i];
      assert CEILINGS[..i + 1][..i] == CEILINGS[..i];
      var failed := if name !in s.comparisons then Some(MissingComparison(name))
                    else if s.comparisons[name].canary < 0.0 || s.comparisons[name].stable < 0.0
                    then Some(Negative(name)) else None;
      if failed.Some? {
        ErrorStops(s, i + 1);
        return Err(failed.value);
      }
      if RelativeOrAbsolute(s.comparisons[name].canary, s.comparisons[name].stable, ceiling) {
        NamesSnoc(breached, name);
        breached := breached + [name];
      }
    }
    assert CEILINGS[..|CEILINGS|] == CEILINGS;
    breached := AddOthers(s, breached);
    result := Ok(breached);
  }

  /** The checks that are not comparisons. */
  method AddOthers(s: Signals, compared: seq<string>) returns (breached: seq<string>)
    ensures Names(breached) == Names(compared) + BreachedOthers(s)
  {
    breached := compared;
    if s.workerChurn > 3.0 {
      NamesSnoc(breached, CHURN);
      breached := breached + [CHURN];
    }
    if s.readinessMinutes > 5.0 {
      NamesSnoc(breached, READINESS);
      breached := breached + [READINESS];
    }
    if "browser_smoke_pass" !in s.passes {
      NamesSnoc(breached, "browser_smoke_pass");
      breached := breached + ["browser_smoke_pass"];
    }
    if "bundle_budget_pass" !in s.passes {
      NamesSnoc(breached, "bundle_budget_pass");
      breached := breached + ["bundle_budget_pass"];
    }
  }

  lemma {:induction false} ErrorStops(s: Signals, n: nat)
    requires n <= |CEILINGS| && BreachedComparisons(s, CEILINGS[..n]).Err?
    ensures BreachedComparisons(s, CEILINGS) == BreachedComparisons(s, CEILINGS[..n])
    decreases |CEILINGS| - n
  {
    if n < |CEILINGS| {
      assert CEILINGS[..n + 1][..n] == CEILINGS[..n];
      ErrorStops(s, n + 1);
    } else {
      assert CEILINGS[..n] == CEILINGS;
    }
  }

  /** Over its ceiling, or over twice a positive stable value. */
  predicate Over(c: Comparison, ceiling: real) {
    c.canary > ceiling || (c.stable > 0.0 && c.canary > 2.0 * c.stable)
  }

  predicate Measured(s: Signals, name: string) {
    name in s.comparisons && s.comparisons[name].canary >= 0.0 && s.comparisons[name].stable >= 0.0
  }

  /** A window is well formed exactly when every comparison is there and not negative; then exactly those are breached
      whose canary is over its ceiling, or over twice a positive stable value. */
  lemma {:induction false} ComparisonsExact(s: Signals, ceilings: seq<(string, real)>, name: string)
    ensures BreachedComparisons(s, ceilings).Ok? <==> forall i :: 0 <= i < |ceilings| ==> Measured(s, ceilings[i].0)
    ensures BreachedComparisons(s, ceilings).Ok? ==>
      (name in BreachedComparisons(s, ceilings).value <==>
       exists i :: 0 <= i < |ceilings| && ceilings[i].0 == name && Over(s.comparisons[name], ceilings[i].1))
    decreases |ceilings|
  {
    if ceilings != [] {
      var n := |ceilings| - 1;
      ComparisonsExact(s, ceilings[..n], name);
      assert forall i :: 0 <= i < n ==> ceilings[..n][i] == ceilings[i];
    }
  }

  predicate FourMeasured(s: Signals) {
    Measured(s, "api_5xx_ratio") && Measured(s, "run_error_ratio") && Measured(s, "queue_p95_seconds")
    && Measured(s, "artifact_failure_ratio")
  }

  /** The eight signals of a window, each with its threshold. */
  predicate Trips(s: Signals, name: string)
    requires FourMeasured(s)
  {
    || (name == "api_5xx_ratio" && Over(s.comparisons[name], 0.01))
    || (name == "run_error_ratio" && Over(s.comparisons[name], 0.05))
    || (name == "queue_p95_seconds" && Over(s.comparisons[name], 60.0))
    || (name == "artifact_failure_ratio" && Over(s.comparisons[name], 0.005))
    || (name == "worker_churn_per_replica_15m" && s.workerChurn > 3.0)
    || (name == "readiness_failure_minutes" && s.readinessMinutes > 5.0)
    || (name in {"browser_smoke_pass", "bundle_budget_pass"} && name !in s.passes)
  }

  /** What one window says, threshold by threshold: it is read exactly when its four comparisons are measured, and then
      it breaches exactly the signals over their thresholds and the passes that are missing. */
  lemma WindowExactly(w: Window, name: string)
    ensures w.signals.None? <==> Breached(w) == Err(NoSignals)
    ensures w.signals.Some? ==> (Breached(w).Ok? <==> FourMeasured(w.signals.value))
    ensures Breached(w).Ok? ==> (name in Breached(w).value <==> Trips(w.signals.value, name))
  {
    if w.signals.Some? {
      var s := w.signals.value;
      ComparisonsExact(s, CEILINGS, name);
      FirstComplaint(s, CEILINGS);
      assert CEILINGS[0] == ("api_5xx_ratio", 0.01) && CEILINGS[1] == ("run_error_ratio", 0.05);
      assert CEILINGS[2] == ("queue_p95_seconds", 60.0) && CEILINGS[3] == ("artifact_failure_ratio", 0.005);
    }
  }

  /** A window that is not read names its first comparison that is missing or negative. */
  lemma {:induction false} FirstComplaint(s: Signals, ceilings: seq<(string, real)>)
    ensures BreachedComparisons(s, ceilings).Err? ==>
      exists i :: 0 <= i < |ceilings| && !Measured(s, ceilings[i].0) &&
        (forall j :: 0 <= j < i ==> Measured(s, ceilings[j].0)) &&
        BreachedComparisons(s, ceilings).error ==
        if ceilings[i].0 in s.comparisons then Negative(ceilings[i].0) else MissingComparison(ceilings[i].0)
    decreases |ceilings|
  {
    if ceilings != [] {
      var n := |ceilings| - 1;
      FirstComplaint(s, ceilings[..n]);
      ComparisonsExact(s, ceilings[..n], "");
      assert forall i :: 0 <= i < n ==> ceilings[..n][i] == ceilings[i];
    }
  }

  // ---- evaluate ----

  /** Python's `windows[-k:]`: the last k, or all of them for 0, or all but the first for a negative count. */
  function Recent(windows: seq<Window>, k: int): seq<Window> {
    if k > 0 then (if k <= |windows| then windows[|windows| - k..] else windows)
    else windows[(if -k <= |windows| then -k else |windows|)..]
  }

  type Verdict = Result<set<string>, GateError>

  function PerWindow(recent: seq<Window>): seq<Verdict> {
    seq(|recent|, i requires 0 <= i < |recent| => Breached(recent[i]))
  }

  /** The signals breached in every window, or the first window's error. */
  function Persistent(perWindow: seq<Verdict>): Verdict
    requires perWindow != []
  {
    if perWindow[0].Err? || |perWindow| == 1 then perWindow[0]
    else
      var rest := Persistent(perWindow[1..]);
      if rest.Err? then rest else Ok(perWindow[0].value * rest.value)
  }

  /** `evaluate`: the persistent breaches; the decision is "halt" when there is one. */
  function Evaluate(windows: seq<Window>, requiredWindows: int): Verdict {
    if |windows| < requiredWindows then Err(TooFewWindows)
    else if Recent(windows, requiredWindows) == [] then Err(NoWindows)
    else Persistent(PerWindow(Recent(windows, requiredWindows)))
  }

  predicate Halts(windows: seq<Window>, k: int) {
    Evaluate(windows, k).Ok? && Evaluate(windows, k).value != {}
  }

  predicate BreachedInAll(perWindow: seq<Verdict>, name: string) {
    forall i :: 0 <= i < |perWindow| ==> perWindow[i].Ok? && name in perWindow[i].value
  }

  predicate AllOk(perWindow: seq<Verdict>) {
    forall i :: 0 <= i < |perWindow| ==> perWindow[i].Ok?
  }

  lemma {:induction false} PersistentIs(perWindow: seq<Verdict>, name: string)
    requires perWindow != []
    ensures Persistent(perWindow).Ok? <==> AllOk(perWindow)
    ensures Persistent(perWindow).Ok? ==> (name in Persistent(perWindow).value <==> BreachedInAll(perWindow, name))
    decreases |perWindow|
  {
    if |perWindow| > 1 {
      var rest := perWindow[1..];
      PersistentIs(rest, name);
      assert forall i :: 1 <= i < |perWindow| ==> perWindow[i] == rest[i - 1];
      assert forall i :: 0 <= i < |rest| ==> rest[i] == perWindow[i + 1];
    }
  }

  /** The gate halts exactly when every one of the last k windows is well formed and one signal is breached in all of
      them. */
  lemma HaltsExactlyWhen(windows: seq<Window>, k: nat)
    requires 1 <= k <= |windows|
    ensures var perWindow := PerWindow(windows[|windows| - k..]);
      (Evaluate(windows, k).Ok? <==> AllOk(perWindow)) &&
      (Halts(windows, k) <==> exists name :: BreachedInAll(perWindow, name))
  {
    var perWindow := PerWindow(windows[|windows| - k..]);
    PersistentIs(perWindow, "");
    if Halts(windows, k) {
      var name :| name in Evaluate(windows, k).value;
      PersistentIs(perWindow, name);
    }
    if name :| BreachedInAll(perWindow, name) {
      PersistentIs(perWindow, name);
    }
  }

  lemma {:induction false} FirstError(perWindow: seq<Verdict>)
    requires perWindow != []
    ensures Persistent(perWindow).Err? ==>
      exists i :: 0 <= i < |perWindow| && perWindow[i] == Persistent(perWindow)
                  && forall j :: 0 <= j < i ==> perWindow[j].Ok?
    decreases |perWindow|
  {
    if perWindow[0].Ok? && |perWindow| > 1 {
      var rest := perWindow[1..];
      FirstError(rest);
      if Persistent(rest).Err? {
        var i :| 0 <= i < |rest| && rest[i] == Persistent(rest) && forall j :: 0 <= j < i ==> rest[j].Ok?;
        assert perWindow[i + 1] == rest[i];
        assert forall j :: 1 <= j <= i ==> perWindow[j] == rest[j - 1];
      }
    }
  }

  /** The answer for every count of windows asked for: too few is an error; a count of 0 asks for all of them, a
      negative one for all but so many at the start; and no windows left is an error. The answer over the rest is the
      error of the first that is not read, or the signals they all breach. */
  lemma EvaluateExactly(windows: seq<Window>, k: int, name: string)
    ensures var from := if k > 0 then |windows| - k else if -k <= |windows| then -k else |windows|;
      if |windows| < k then Evaluate(windows, k) == Err(TooFewWindows)
      else if from == |windows| then Evaluate(windows, k) == Err(NoWindows)
      else
        var perWindow := PerWindow(windows[from..]);
        && (Evaluate(windows, k).Ok? <==> AllOk(perWindow))
        && (Evaluate(windows, k).Ok? ==> (name in Evaluate(windows, k).value <==> BreachedInAll(perWindow, name)))
        && (Evaluate(windows, k).Err? ==>
              exists i :: 0 <= i < |perWindow| && perWindow[i] == Evaluate(windows, k)
                          && forall j :: 0 <= j < i ==> perWindow[j].Ok?)
  {
    var from := if k > 0 then |windows| - k else if -k <= |windows| then -k else |windows|;
    if |windows| >= k && from != |windows| {
      var perWindow := PerWindow(windows[from..]);
      PersistentIs(perWindow, name);
      FirstError(perWindow);
    }
  }

  /** Windows before the last k do not matter. */
  lemma OlderWindowsDoNotMatter(older: seq<Window>, windows: seq<Window>, k: nat)
    requires 1 <= k <= |windows|
    ensures Evaluate(older + windows, k) == Evaluate(windows, k)
  {
    SameTail(older, windows, k);
  }

  lemma SameTail(older: seq<Window>, windows: seq<Window>, k: nat)
    requires 1 <= k <= |windows|
    ensures Recent(older + windows, k) == Recent(windows, k) != []
  {
  }

  /** Asking for one window more is harder to satisfy. */
  lemma LongerIsStricter(windows: seq<Window>, k: nat)
    requires 1 <= k < |windows| && Halts(windows, k + 1)
    ensures Halts(windows, k)
  {
    var longer := PerWindow(windows[|windows| - (k + 1)..]);
    assert longer[1..] == PerWindow(windows[|windows| - k..]);
  }

  /** A window that is worse for the canary: higher canary values, more churn and downtime, fewer passes. */
  predicate Worse(w: Window, v: Window) {
    w.signals.Some? && v.signals.Some? &&
    var s, t := w.signals.value, v.signals.value;
    && t.comparisons.Keys == s.comparisons.Keys
    && (forall n :: n in s.comparisons ==> t.comparisons[n].stable == s.comparisons[n].stable
                                           && t.comparisons[n].canary >= s.comparisons[n].canary)
    && t.workerChurn >= s.workerChurn && t.readinessMinutes >= s.readinessMinutes && t.passes <= s.passes
  }

  lemma {:induction false} WorseComparisons(s: Signals, t: Signals, ceilings: seq<(string, real)>)
    requires Worse(Window(Some(s)), Window(Some(t))) && BreachedComparisons(s, ceilings).Ok?
    ensures BreachedComparisons(t, ceilings).Ok?
    ensures BreachedComparisons(s, ceilings).value <= BreachedComparisons(t, ceilings).value
    decreases |ceilings|
  {
    if ceilings != [] {
      WorseComparisons(s, t, ceilings[..|ceilings| - 1]);
    }
  }

  lemma WorseBreaches(w: Window, v: Window)
    requires Worse(w, v) && Breached(w).Ok?
    ensures Breached(v).Ok? && Breached(w).value <= Breached(v).value
  {
    WorseComparisons(w.signals.value, v.signals.value, CEILINGS);
  }

  /** A worse canary never turns a halt into a continue. */
  lemma WorseStillHalts(windows: seq<Window>, worse: seq<Window>, k: nat)
    requires 1 <= k <= |windows| == |worse| && Halts(windows, k)
    requires forall i :: |windows| - k <= i < |windows| ==> Worse(windows[i], worse[i])
    ensures Halts(worse, k)
  {
    HaltsExactlyWhen(windows, k);
    HaltsExactlyWhen(worse, k);
    var from := |windows| - k;
    var a, b := PerWindow(windows[from..]), PerWindow(worse[from..]);
    var name :| BreachedInAll(a, name);
    forall i | 0 <= i < k ensures b[i].Ok? && name in b[i].value {
      assert a[i] == Breached(windows[from + i]) && b[i] == Breached(worse[from + i]);
      WorseBreaches(windows[from + i], worse[from + i]);
    }
    assert BreachedInAll(b, name);
  }
}
