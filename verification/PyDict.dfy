/** A Python dict with string keys: entries in insertion order, where assigning to a key that is present keeps its
    place. */
module PyDict {
  import opened Prelude

  type Dict<V> = seq<(string, V)>

  predicate Distinct<V>(d: Dict<V>) {
    forall i, j :: 0 <= i < j < |d| ==> d[i].0 != d[j].0
  }

  predicate HasKey<V>(d: Dict<V>, k: string) {
    exists i :: 0 <= i < |d| && d[i].0 == k
  }

  function Get<V>(d: Dict<V>, k: string): Option<V> {
    if d == [] then None else if d[0].0 == k then Some(d[0].1) else Get(d[1..], k)
  }

  /** `d[k] = v` */
  function Put<V>(d: Dict<V>, k: string, v: V): Dict<V> {
    if d == [] then [(k, v)]
    else if d[0].0 == k then [(k, v)] + d[1..]
    else [d[0]] + Put(d[1..], k, v)
  }

  lemma {:induction false} GetAt<V>(d: Dict<V>, i: nat)
    requires Distinct(d) && i < |d|
    ensures Get(d, d[i].0) == Some(d[i].1)
  {
    if i > 0 {
      GetAt(d[1..], i - 1);
    }
  }

  /** Assignment changes what is read at its own key and nowhere else. */
  lemma {:induction false} GetPut<V>(d: Dict<V>, k: string, v: V, q: string)
    ensures Get(Put(d, k, v), q) == if q == k then Some(v) else Get(d, q)
  {
    if d != [] && d[0].0 != k {
      GetPut(d[1..], k, v, q);
    }
  }

  /** A new key goes to the end. */
  lemma {:induction false} PutNew<V>(d: Dict<V>, k: string, v: V)
    requires forall i :: 0 <= i < |d| ==> d[i].0 != k
    ensures Put(d, k, v) == d + [(k, v)]
  {
    if d != [] {
      PutNew(d[1..], k, v);
    }
  }

  /** A key that is present keeps its place. */
  lemma {:induction false} PutOld<V>(d: Dict<V>, i: nat, v: V)
    requires Distinct(d) && i < |d|
    ensures Put(d, d[i].0, v) == d[i := (d[i].0, v)]
  {
    var k, tail := d[i].0, d[1..];
    if i > 0 {
      assert tail[i - 1] == d[i] && d[0].0 != k;
      PutOld(tail, i - 1, v);
      assert Put(d, k, v) == [d[0]] + tail[i - 1 := (k, v)];
      assert [d[0]] + tail[i - 1 := (k, v)] == d[i := (k, v)];
    } else {
      assert [(k, v)] + tail == d[0 := (k, v)];
    }
  }

  /** What holds of every entry of the dict and of the new entry holds of every entry afterwards. */
  lemma PutKeeps<V>(d: Dict<V>, k: string, v: V) returns (place: nat)
    requires Distinct(d)
    ensures Distinct(Put(d, k, v)) && place <= |d|
    ensures Put(d, k, v) == if place < |d| then d[place := (k, v)] else d + [(k, v)]
  {
    if HasKey(d, k) {
      var i :| 0 <= i < |d| && d[i].0 == k;
      PutOld(d, i, v);
      place := i;
    } else {
      PutNew(d, k, v);
      place := |d|;
    }
  }
}
