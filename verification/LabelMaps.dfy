/** The two label parsers: `normalize_label_map` of apps/api/app/schemas.py and `worker_label_map` of
    apps/api/app/config.py. Queue rows and workers must agree on one spelling of a label. */
module LabelMaps {
  import opened Prelude
  import opened PyStrings
  import opened PyDict

  /** A label value as it arrives: a boolean, or anything else by its `str(...)`. */
  datatype Raw = Flag(b: bool) | Text(s: string)

  function LabelText(raw: Raw): string {
    match raw
    case Flag(b) => if b then "true" else "false"
    case Text(s) => Strip(s)
  }

  /** A boolean is spelled in lower case; any other value loses the white space around it, and nothing else. */
  lemma LabelTextExact(a: string, o: string, b: string)
    requires Blank(a) && Trimmed(o) && Blank(b)
    ensures LabelText(Flag(true)) == "true" && LabelText(Flag(false)) == "false" && LabelText(Text(a + o + b)) == o
  {
    StripOf(a, o, b);
  }

  /** Distinct trimmed non-empty keys, trimmed values. */
  predicate Canonical(labels: Dict<string>) {
    Distinct(labels) &&
    forall i :: 0 <= i < |labels| ==> labels[i].0 != "" && Trimmed(labels[i].0) && Trimmed(labels[i].1)
  }

  lemma CanonicalPut(labels: Dict<string>, k: string, v: string)
    requires Canonical(labels) && k != "" && Trimmed(k) && Trimmed(v)
    ensures Canonical(Put(labels, k, v))
  {
    var place := PutKeeps(labels, k, v);
  }

  // ---- normalize_label_map ----

  function NormalizeItem(item: (string, Raw), labels: Dict<string>): Dict<string> {
    var key := Strip(item.0);
    if key == "" then labels else Put(labels, key, LabelText(item.1))
  }

  function NormalizeItems(items: seq<(string, Raw)>): Dict<string> {
    if items == [] then [] else NormalizeItem(items[|items| - 1], NormalizeItems(items[..|items| - 1]))
  }

  /** `normalize_label_map` as a function; `None` is Python's None. */
  function Normalized(value: Option<seq<(string, Raw)>>): Option<Dict<string>> {
    if value.None? || value.value == [] || NormalizeItems(value.value) == [] then None
    else Some(NormalizeItems(value.value))
  }

  method NormalizeLabelMap(value: Option<seq<(string, Raw)>>) returns (result: Option<Dict<string>>)
    ensures result == Normalized(value)
  {
    if value.None? || value.value == [] {
      return None;
    }
    var items := value.value;
    var labels: Dict<string> := [];
    for i := 0 to |items|
      invariant labels == NormalizeItems(items[..i])
    {
      assert items[..i + 1][..i] == items[..i];
      var key := Strip(items[i].0);
      if key == "" {
        continue;
      }
      labels := Put(labels, key, LabelText(items[i].1));
    }
    assert items[..|items|] == items;
    result := if labels == [] then None else Some(labels);
  }

  /** The last item whose trimmed key is `k`, if any, decides the label: an independent reading of the loop. */
  function LastItem(items: seq<(string, Raw)>, k: string): Option<string> {
    if items == [] then None
    else if Strip(items[|items| - 1].0) == k then Some(LabelText(items[|items| - 1].1))
    else LastItem(items[..|items| - 1], k)
  }

  lemma {:induction false} NormalizeLastWins(items: seq<(string, Raw)>, k: string)
    ensures Get(NormalizeItems(items), k) == if k == "" then None else LastItem(items, k)
    decreases |items|
  {
    if items != [] {
      NormalizeLastWins(items[..|items| - 1], k);
      var item := items[|items| - 1];
      if Strip(item.0) != "" {
        GetPut(NormalizeItems(items[..|items| - 1]), Strip(item.0), LabelText(item.1), k);
      }
    }
  }

  lemma TrimmedText(raw: Raw)
    ensures Trimmed(LabelText(raw))
  {
    match raw
    case Flag(b) =>
    case Text(s) => StripTrims(s);
  }

  lemma {:induction false} NormalizeIsCanonical(items: seq<(string, Raw)>)
    ensures Canonical(NormalizeItems(items))
    decreases |items|
  {
    if items != [] {
      NormalizeIsCanonical(items[..|items| - 1]);
      var item := items[|items| - 1];
      StripTrims(item.0);
      TrimmedText(item.1);
      if Strip(item.0) != "" {
        CanonicalPut(NormalizeItems(items[..|items| - 1]), Strip(item.0), LabelText(item.1));
      }
    }
  }

  /** A label map read back as input. */
  function AsItems(labels: Dict<string>): seq<(string, Raw)> {
    seq(|labels|, i requires 0 <= i < |labels| => (labels[i].0, Text(labels[i].1)))
  }

  lemma CanonicalItem(k: string, v: string, labels: Dict<string>)
    requires k != "" && Trimmed(k) && Trimmed(v) && forall i :: 0 <= i < |labels| ==> labels[i].0 != k
    ensures NormalizeItem((k, Text(v)), labels) == labels + [(k, v)]
  {
    assert Strip(k) == k && Strip(v) == v by {
      StripTrims(k);
      StripTrims(v);
    }
    PutNew(labels, k, v);
  }

  lemma NormalizeSnoc(items: seq<(string, Raw)>, item: (string, Raw))
    ensures NormalizeItems(items + [item]) == NormalizeItem(item, NormalizeItems(items))
  {
    assert (items + [item])[..|items|] == items;
  }

  lemma CanonicalLast(labels: Dict<string>)
    requires Canonical(labels) && labels != []
    ensures var n := |labels| - 1; var (k, v) := labels[n];
      && Canonical(labels[..n]) && labels == labels[..n] + [(k, v)]
      && AsItems(labels) == AsItems(labels[..n]) + [(k, Text(v))]
      && NormalizeItem((k, Text(v)), labels[..n]) == labels
  {
    var n := |labels| - 1;
    CanonicalItem(labels[n].0, labels[n].1, labels[..n]);
  }

  lemma {:induction false} CanonicalUnchanged(labels: Dict<string>)
    requires Canonical(labels)
    ensures NormalizeItems(AsItems(labels)) == labels
    decreases |labels|
  {
    if labels != [] {
      var n := |labels| - 1;
      CanonicalLast(labels);
      CanonicalUnchanged(labels[..n]);
      NormalizeSnoc(AsItems(labels[..n]), (labels[n].0, Text(labels[n].1)));
    }
  }

  /** Normalizing keeps exactly the non-empty canonical maps, entries and order; so a second pass changes nothing. */
  lemma NormalizeFixpoints(labels: Dict<string>)
    ensures Normalized(Some(AsItems(labels))) == Some(labels) <==> labels != [] && Canonical(labels)
  {
    NormalizeIsCanonical(AsItems(labels));
    if Canonical(labels) {
      CanonicalUnchanged(labels);
    }
  }

  function Again(labels: Option<Dict<string>>): Option<seq<(string, Raw)>> {
    if labels.None? then None else Some(AsItems(labels.value))
  }

  /** Normalizing what was normalized, labels or nothing, changes nothing. */
  lemma NormalizeIdempotent(value: Option<seq<(string, Raw)>>)
    ensures Normalized(Again(Normalized(value))) == Normalized(value)
  {
    if Normalized(value).Some? {
      NormalizeIsCanonical(value.value);
      NormalizeFixpoints(Normalized(value).value);
    }
  }

  // ---- worker_label_map ----

  /** What one comma-separated part assigns, if anything. */
  function Assignment(item: string): Option<(string, string)> {
    var part := Strip(item);
    if part == "" then None
    else if '=' !in part then Some((part, "true"))
    else
      var i := IndexOf(part, '=');
      assert i < |part|;
      var key := Strip(part[..i]);
      if key == "" then None else Some((key, Strip(part[i + 1..])))
  }

  /** What a part of a worker's label string assigns: blank, nothing; without '=', "true" to the whole; otherwise what
      follows the first '=' to what precedes it, unless that is blank. White space around each does not count. */
  lemma AssignmentExact(a: string, core: string, b: string, left: string, right: string)
    requires Blank(a) && Trimmed(core) && Blank(b)
    ensures core == "" ==> Assignment(a + core + b) == None
    ensures core != "" && '=' !in core ==> Assignment(a + core + b) == Some((core, "true"))
    ensures core == left + "=" + right && '=' !in left ==>
              Assignment(a + core + b) == if Strip(left) == "" then None else Some((Strip(left), Strip(right)))
  {
    StripOf(a, core, b);
    if core == left + "=" + right && '=' !in left {
      assert core[|left|] == '=' && core[..|left|] == left && core[|left| + 1..] == right;
      IndexOfUnique(core, '=', |left|);
    }
  }

  function AssignPart(item: string, labels: Dict<string>): Dict<string> {
    var a := Assignment(item);
    if a.None? then labels else Put(labels, a.value.0, a.value.1)
  }

  function AssignParts(parts: seq<string>): Dict<string> {
    if parts == [] then [] else AssignPart(parts[|parts| - 1], AssignParts(parts[..|parts| - 1]))
  }

  lemma AssignPartsSnoc(parts: seq<string>, n: nat)
    requires n < |parts|
    ensures AssignParts(parts[..n + 1]) == AssignPart(parts[n], AssignParts(parts[..n]))
  {
    assert parts[..n + 1][..n] == parts[..n];
  }

  function WorkerLabels(workerLabels: string): Dict<string> {
    AssignParts(SplitOn(workerLabels, ','))
  }

  /** The parts are what stands between the commas. */
  lemma WorkerLabelsParts(workerLabels: string)
    ensures exists parts :: Separates(parts, workerLabels, ',') && WorkerLabels(workerLabels) == AssignParts(parts)
  {
    SplitOnExact(workerLabels, ',');
    var parts := SplitOn(workerLabels, ',');
    assert Separates(parts, workerLabels, ',') && WorkerLabels(workerLabels) == AssignParts(parts);
  }

  method WorkerLabelMap(workerLabels: string) returns (labels: Dict<string>)
    ensures labels == WorkerLabels(workerLabels)
  {
    labels := [];
    var parts := SplitOn(workerLabels, ',');
    for n := 0 to |parts|
      invariant labels == AssignParts(parts[..n])
    {
      AssignPartsSnoc(parts, n);
      var part := Strip(parts[n]);
      if part == "" {
        continue;
      }
      if '=' !in part {
        labels := Put(labels, part, "true");
        continue;
      }
      var i := IndexOf(part, '=');
      var key, value := part[..i], part[i + 1..];
      key := Strip(key);
      value := Strip(value);
      if key != "" {
        labels := Put(labels, key, value);
      }
    }
    assert parts[..|parts|] == parts;
  }

  lemma AssignmentTrimmed(item: string)
    ensures Assignment(item).Some? ==>
      var (k, v) := Assignment(item).value; k != "" && Trimmed(k) && Trimmed(v)
  {
    StripTrims(item);
    var part := Strip(item);
    if '=' in part {
      StripTrims(part[..IndexOf(part, '=')]);
      StripTrims(part[IndexOf(part, '=') + 1..]);
    }
  }

  lemma {:induction false} AssignPartsCanonical(parts: seq<string>)
    ensures Canonical(AssignParts(parts))
    decreases |parts|
  {
    if parts != [] {
      AssignPartsCanonical(parts[..|parts| - 1]);
      var a := Assignment(parts[|parts| - 1]);
      AssignmentTrimmed(parts[|parts| - 1]);
      if a.Some? {
        CanonicalPut(AssignParts(parts[..|parts| - 1]), a.value.0, a.value.1);
      }
    }
  }

  /** The last part that assigns `k` decides the label. */
  function LastAssignment(parts: seq<string>, k: string): Option<string> {
    if parts == [] then None
    else
      var a := Assignment(parts[|parts| - 1]);
      if a.Some? && a.value.0 == k then Some(a.value.1) else LastAssignment(parts[..|parts| - 1], k)
  }

  lemma {:induction false} WorkerLabelsLastWins(parts: seq<string>, k: string)
    ensures Get(AssignParts(parts), k) == LastAssignment(parts, k)
    decreases |parts|
  {
    if parts != [] {
      WorkerLabelsLastWins(parts[..|parts| - 1], k);
      var a := Assignment(parts[|parts| - 1]);
      if a.Some? {
        GetPut(AssignParts(parts[..|parts| - 1]), a.value.0, a.value.1, k);
      }
    }
  }

  /** Both parsers write one canonical form: whatever a worker's label string parses to, if anything, is what
      normalizing it as a queue row's requirement gives back, entry for entry. */
  lemma WorkerLabelsAreNormalized(workerLabels: string)
    ensures Canonical(WorkerLabels(workerLabels))
    ensures Normalized(Some(AsItems(WorkerLabels(workerLabels)))) ==
            if WorkerLabels(workerLabels) == [] then None else Some(WorkerLabels(workerLabels))
  {
    AssignPartsCanonical(SplitOn(workerLabels, ','));
    CanonicalUnchanged(WorkerLabels(workerLabels));
  }
}
