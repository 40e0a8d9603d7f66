/** Decoded JSON: the NUL scan of apps/api/app/main.py and the storage-field redaction of apps/api/app/schemas.py. */
module JsonTree {
  import opened Prelude

  /** A decoded JSON document. An object keeps its entries in insertion order, as a Python dict does. */
  datatype Json =
    | Null
    | Bool(b: bool)
    | Number(n: real)
    | Str(s: string)
    | Arr(items: seq<Json>)
    | Obj(fields: seq<Member>)

  datatype Member = Member(key: string, value: Json)

  /** A Python dict holds each key once. */
  predicate UniqueKeys(fields: seq<Member>) {
    forall i, j :: 0 <= i < j < |fields| ==> fields[i].key != fields[j].key
  }

  predicate WellFormed(j: Json) {
    match j
    case Arr(items) => forall i :: 0 <= i < |items| ==> WellFormed(items[i])
    case Obj(fields) => UniqueKeys(fields) && forall i :: 0 <= i < |fields| ==> WellFormed(fields[i].value)
    case _ => true
  }

  // ---- Paths into a document ----

  datatype PathStep = Index(i: int) | Key(k: string)

  function Lookup(fields: seq<Member>, k: string): Option<Json> {
    if fields == [] then None
    else if fields[0].key == k then Some(fields[0].value)
    else Lookup(fields[1..], k)
  }

  /** What a path leads to, if anything. */
  function At(j: Json, path: seq<PathStep>): Option<Json>
    decreases |path|
  {
    if path == [] then Some(j)
    else
      var child := match (j, path[0])
        case (Arr(items), Index(i)) => if 0 <= i < |items| then Some(items[i]) else None
        case (Obj(fields), Key(k)) => Lookup(fields, k)
        case _ => None;
      if child.None? then None else At(child.value, path[1..])
  }

  // ---- The NUL scan ----

  const NUL: char := '\0'

  /** Some string, or some object key, at some depth holds a NUL character. */
  ghost predicate HasNul(j: Json) {
    match j
    case Str(s) => NUL in s
    case Arr(items) => exists i :: 0 <= i < |items| && HasNul(items[i])
    case Obj(fields) => exists i :: 0 <= i < |fields| && (NUL in fields[i].key || HasNul(fields[i].value))
    case _ => false
  }

  /** The value at the end of the path is a string with a NUL, or an object with a NUL in one of its keys. */
  ghost predicate NulEndsPath(j: Json, path: seq<PathStep>) {
    var v := At(j, path);
    v.Some? &&
    match v.value
    case Str(s) => '\0' in s
    case Obj(fields) => exists i :: 0 <= i < |fields| && '\0' in fields[i].key
    case _ => false
  }

  function Size(j: Json): nat
    ensures Size(j) > 0
    decreases j, 1
  {
    match j
    case Arr(items) => 1 + SizeAll(items)
    case Obj(fields) => 1 + SizeFields(fields)
    case _ => 1
  }

  function SizeAll(items: seq<Json>): nat
    decreases items, 0
  {
    if items == [] then 0 else Size(items[0]) + SizeAll(items[1..])
  }

  function SizeFields(fields: seq<Member>): nat
    decreases fields, 0
  {
    if fields == [] then 0 else 1 + Size(fields[0].value) + SizeFields(fields[1..])
  }

  lemma {:induction false} SizeAllConcat(a: seq<Json>, b: seq<Json>)
    ensures SizeAll(a + b) == SizeAll(a) + SizeAll(b)
  {
    if a == [] {
      assert a + b == b;
    } else {
      SizeAllConcat(a[1..], b);
      assert (a + b)[1..] == a[1..] + b;
    }
  }

  function KeysOf(fields: seq<Member>): seq<Json> {
    seq(|fields|, i requires 0 <= i < |fields| => Str(fields[i].key))
  }

  function ValuesOf(fields: seq<Member>): seq<Json> {
    seq(|fields|, i requires 0 <= i < |fields| => fields[i].value)
  }

  lemma {:induction false} SizeKeysValues(fields: seq<Member>)
    ensures SizeAll(KeysOf(fields)) + SizeAll(ValuesOf(fields)) == SizeFields(fields)
  {
    if fields != [] {
      SizeKeysValues(fields[1..]);
      assert KeysOf(fields)[1..] == KeysOf(fields[1..]);
      assert ValuesOf(fields)[1..] == ValuesOf(fields[1..]);
    }
  }

  ghost predicate AnyNul(pending: seq<Json>) {
    exists i :: 0 <= i < |pending| && HasNul(pending[i])
  }

  lemma AnyNulConcat(a: seq<Json>, b: seq<Json>)
    ensures AnyNul(a + b) <==> AnyNul(a) || AnyNul(b)
  {
    var c := a + b;
    if AnyNul(a) {
      var i :| 0 <= i < |a| && HasNul(a[i]);
      assert HasNul(c[i]);
    }
    if AnyNul(b) {
      var i :| 0 <= i < |b| && HasNul(b[i]);
      assert HasNul(c[|a| + i]);
    }
  }

  lemma ObjNulIsKeysOrValues(fields: seq<Member>)
    ensures HasNul(Obj(fields)) <==> AnyNul(KeysOf(fields)) || AnyNul(ValuesOf(fields))
  {
    var keys, values := KeysOf(fields), ValuesOf(fields);
    forall i | 0 <= i < |fields|
      ensures HasNul(keys[i]) <==> NUL in fields[i].key
      ensures HasNul(values[i]) <==> HasNul(fields[i].value)
    {
    }
  }

  /** `_json_contains_nul`: a worklist popped from its end and extended with an object's keys and values. */
  method JsonContainsNul(value: Json) returns (found: bool)
    ensures found <==> HasNul(value)
  {
    var pending := [value];
    assert AnyNul(pending) <==> HasNul(value) by {
      assert pending[0] == value;
    }
    while pending != []
      invariant AnyNul(pending) <==> HasNul(value)
      decreases SizeAll(pending)
    {
      var current := pending[|pending| - 1];
      ghost var rest := pending[..|pending| - 1];
      assert pending == rest + [current];
      AnyNulConcat(rest, [current]);
      SizeAllConcat(rest, [current]);
      assert AnyNul([current]) <==> HasNul(current) by {
        assert [current][0] == current;
      }
      assert SizeAll([current]) == Size(current) + SizeAll([]);
      pending := pending[..|pending| - 1];
      match current
      case Str(s) =>
        if NUL in s {
          return true;
        }
      case Obj(fields) =>
        ObjNulIsKeysOrValues(fields);
        AnyNulConcat(pending, KeysOf(fields));
        AnyNulConcat(pending + KeysOf(fields), ValuesOf(fields));
        SizeAllConcat(pending, KeysOf(fields));
        SizeAllConcat(pending + KeysOf(fields), ValuesOf(fields));
        SizeKeysValues(fields);
        pending := pending + KeysOf(fields);
        pending := pending + ValuesOf(fields);
      case Arr(items) =>
        AnyNulConcat(pending, items);
        SizeAllConcat(pending, items);
        pending := pending + items;
      case _ =>
    }
    found := false;
  }

  lemma {:induction false} LookupFirst(fields: seq<Member>, i: nat)
    requires UniqueKeys(fields) && i < |fields|
    ensures Lookup(fields, fields[i].key) == Some(fields[i].value)
  {
    if i > 0 {
      LookupFirst(fields[1..], i - 1);
    }
  }

  lemma {:induction false} LookupFound(fields: seq<Member>, k: string) returns (i: nat)
    requires Lookup(fields, k).Some?
    ensures i < |fields| && fields[i] == Member(k, Lookup(fields, k).value)
  {
    if fields[0].key == k {
      i := 0;
    } else {
      i := LookupFound(fields[1..], k);
      i := i + 1;
    }
  }

  /** A path from the root to a NUL, for every document in which the recursive definition finds one. */
  lemma {:induction false} NulHasPath(j: Json) returns (path: seq<PathStep>)
    requires WellFormed(j) && HasNul(j)
    ensures NulEndsPath(j, path)
    decreases j
  {
    match j
    case Str(s) =>
      path := [];
    case Arr(items) =>
      var i :| 0 <= i < |items| && HasNul(items[i]);
      var tail := NulHasPath(items[i]);
      path := [Index(i)] + tail;
      assert path[1..] == tail;
    case Obj(fields) =>
      var i :| 0 <= i < |fields| && (NUL in fields[i].key || HasNul(fields[i].value));
      if NUL in fields[i].key {
        path := [];
      } else {
        LookupFirst(fields, i);
        var tail := NulHasPath(fields[i].value);
        path := [Key(fields[i].key)] + tail;
        assert path[1..] == tail;
      }
  }

  lemma {:induction false} PathHasNul(j: Json, path: seq<PathStep>)
    requires NulEndsPath(j, path)
    ensures HasNul(j)
    decreases |path|
  {
    if path != [] {
      match (j, path[0])
      case (Arr(items), Index(i)) =>
        PathHasNul(items[i], path[1..]);
      case (Obj(fields), Key(k)) =>
        var i := LookupFound(fields, k);
        PathHasNul(fields[i].value, path[1..]);
    }
  }

  /** The scan's recursive definition says exactly: some path leads to a string or an object key with a NUL. */
  lemma HasNulIffSomePath(j: Json)
    requires WellFormed(j)
    ensures HasNul(j) <==> exists path :: NulEndsPath(j, path)
  {
    if HasNul(j) {
      var path := NulHasPath(j);
    }
    if path :| NulEndsPath(j, path) {
      PathHasNul(j, path);
    }
  }

  // ---- Redaction of storage fields ----

  const INTERNAL_ARTIFACT_FIELDS: set<string> := {"storage_key", "storage_backend"}

  /** `_strip_storage_fields` */
  function StripStorageFields(j: Json): Json
    decreases j, 1
  {
    match j
    case Obj(fields) => Obj(StripFields(fields))
    case Arr(items) => Arr(StripItems(items))
    case _ => j
  }

  function StripItems(items: seq<Json>): seq<Json>
    decreases items, 0
  {
    if items == [] then [] else [StripStorageFields(items[0])] + StripItems(items[1..])
  }

  function StripFields(fields: seq<Member>): seq<Member>
    decreases fields, 0
  {
    if fields == [] then []
    else if fields[0].key in INTERNAL_ARTIFACT_FIELDS then StripFields(fields[1..])
    else [Member(fields[0].key, StripStorageFields(fields[0].value))] + StripFields(fields[1..])
  }

  /** No storage key at any depth. */
  predicate Redacted(j: Json) {
    match j
    case Arr(items) => forall i :: 0 <= i < |items| ==> Redacted(items[i])
    case Obj(fields) =>
      forall i :: 0 <= i < |fields| ==>
        fields[i].key !in {"storage_key", "storage_backend"} && Redacted(fields[i].value)
    case _ => true
  }

  predicate AvoidsStorage(path: seq<PathStep>) {
    forall i :: 0 <= i < |path| && path[i].Key? ==> path[i].k !in {"storage_key", "storage_backend"}
  }

  /** The keys an object keeps, in their order. */
  function KeptKeys(fields: seq<Member>): seq<string> {
    if fields == [] then []
    else if fields[0].key in {"storage_key", "storage_backend"} then KeptKeys(fields[1..])
    else [fields[0].key] + KeptKeys(fields[1..])
  }

  lemma {:induction false} StripItemsAt(items: seq<Json>)
    ensures |StripItems(items)| == |items|
    ensures forall i :: 0 <= i < |items| ==> StripItems(items)[i] == StripStorageFields(items[i])
  {
    if items != [] {
      StripItemsAt(items[1..]);
      assert forall i :: 1 <= i < |items| ==> items[i] == items[1..][i - 1];
    }
  }

  lemma {:induction false} StripFieldsLookup(fields: seq<Member>, k: string)
    ensures Lookup(StripFields(fields), k) ==
            if k in INTERNAL_ARTIFACT_FIELDS || Lookup(fields, k).None? then None
            else Some(StripStorageFields(Lookup(fields, k).value))
  {
    if fields != [] {
      StripFieldsLookup(fields[1..], k);
    }
  }

  lemma {:induction false} StripFieldsKeys(fields: seq<Member>)
    ensures |StripFields(fields)| == |KeptKeys(fields)|
    ensures forall i :: 0 <= i < |KeptKeys(fields)| ==> StripFields(fields)[i].key == KeptKeys(fields)[i]
  {
    if fields != [] {
      StripFieldsKeys(fields[1..]);
    }
  }

  /** Redaction keeps exactly the paths that pass through no storage key, and at the end of each what the same
      redaction makes of the value there: leaves as they are, lists with the same length, keys in their order. */
  lemma {:induction false} StripKeepsExactly(j: Json, path: seq<PathStep>)
    ensures At(StripStorageFields(j), path) ==
            if AvoidsStorage(path) && At(j, path).Some? then Some(StripStorageFields(At(j, path).value)) else None
    decreases |path|
  {
    if path != [] {
      assert path == [path[0]] + path[1..];
      match j
      case Arr(items) =>
        StripItemsAt(items);
        if path[0].Index? && 0 <= path[0].i < |items| {
          StripKeepsExactly(items[path[0].i], path[1..]);
        }
      case Obj(fields) =>
        if path[0].Key? {
          StripFieldsLookup(fields, path[0].k);
          if Lookup(fields, path[0].k).Some? {
            StripKeepsExactly(Lookup(fields, path[0].k).value, path[1..]);
          }
        }
      case _ =>
    }
  }

  lemma StripShape(j: Json)
    ensures !j.Arr? && !j.Obj? ==> StripStorageFields(j) == j
    ensures j.Arr? ==> StripStorageFields(j).Arr? && |StripStorageFields(j).items| == |j.items|
    ensures j.Obj? ==> StripStorageFields(j).Obj? && |StripStorageFields(j).fields| == |KeptKeys(j.fields)|
    ensures j.Obj? ==> forall i :: 0 <= i < |KeptKeys(j.fields)|
                                   ==> StripStorageFields(j).fields[i].key == KeptKeys(j.fields)[i]
  {
    match j
    case Arr(items) => StripItemsAt(items);
    case Obj(fields) => StripFieldsKeys(fields);
    case _ =>
  }

  lemma {:induction false} StripRedacts(j: Json)
    ensures Redacted(StripStorageFields(j))
    decreases j, 1
  {
    match j
    case Arr(items) =>
      StripItemsAt(items);
      forall i | 0 <= i < |items| ensures Redacted(StripStorageFields(items[i])) {
        StripRedacts(items[i]);
      }
    case Obj(fields) => StripFieldsRedacts(fields);
    case _ =>
  }

  lemma {:induction false} StripFieldsRedacts(fields: seq<Member>)
    ensures forall i :: 0 <= i < |StripFields(fields)| ==>
      StripFields(fields)[i].key !in INTERNAL_ARTIFACT_FIELDS && Redacted(StripFields(fields)[i].value)
    decreases fields, 0
  {
    if fields != [] {
      StripRedacts(fields[0].value);
      StripFieldsRedacts(fields[1..]);
    }
  }

  lemma {:induction false} RedactedUnchanged(j: Json)
    requires Redacted(j)
    ensures StripStorageFields(j) == j
    decreases j, 1
  {
    match j
    case Arr(items) =>
      StripItemsAt(items);
      forall i | 0 <= i < |items| ensures StripStorageFields(items[i]) == items[i] {
        RedactedUnchanged(items[i]);
      }
      assert StripItems(items) == items;
    case Obj(fields) => RedactedFieldsUnchanged(fields);
    case _ =>
  }

  lemma {:induction false} RedactedFieldsUnchanged(fields: seq<Member>)
    requires forall i :: 0 <= i < |fields| ==>
      fields[i].key !in INTERNAL_ARTIFACT_FIELDS && Redacted(fields[i].value)
    ensures StripFields(fields) == fields
    decreases fields, 0
  {
    if fields != [] {
      RedactedUnchanged(fields[0].value);
      RedactedFieldsUnchanged(fields[1..]);
    }
  }

  /** Redaction changes exactly the documents that hold a storage key, and doing it twice adds nothing. */
  lemma StripIdempotent(j: Json)
    ensures StripStorageFields(j) == j <==> Redacted(j)
    ensures StripStorageFields(StripStorageFields(j)) == StripStorageFields(j)
  {
    StripRedacts(j);
    RedactedUnchanged(StripStorageFields(j));
    if Redacted(j) {
      RedactedUnchanged(j);
    }
  }
}
