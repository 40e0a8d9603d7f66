/** The KEK migration of scripts/migrate_kms.py: rows re-wrapped one by one, committed in batches, with a crash possible
    between any two database steps. */
module KekMigration {
  import opened Prelude

  /** A wrapped key: what it unwraps to, and under which provider; or text no provider can unwrap. */
  datatype Wrapped = Sealed(provider: string, kek: string) | Garbled(text: string)

  /** `Organization.wrapped_org_kek` by organization id; None is NULL. */
  type Keys = map<string, Option<Wrapped>>

  /** `faults` are the organizations for which a provider call fails although the key is sound. */
  datatype Config = Config(source: string, target: string, dryRun: bool, batchSize: int, faults: set<string>)

  function Decrypt(provider: string, w: Wrapped): Option<string> {
    if w.Sealed? && w.provider == provider then Some(w.kek) else None
  }

  function Encrypt(provider: string, kek: string): Wrapped {
    Sealed(provider, kek)
  }

  /** The two provider calls succeed for this organization. */
  predicate Convertible(keys: Keys, id: string, c: Config) {
    id in keys && keys[id].Some? && Decrypt(c.source, keys[id].value).Some? && id !in c.faults
  }

  function Converted(keys: Keys, id: string, c: Config): Option<Wrapped>
    requires Convertible(keys, id, c)
  {
    Some(Encrypt(c.target, Decrypt(c.source, keys[id].value).value))
  }

  predicate Under(keys: Keys, id: string, provider: string) {
    id in keys && keys[id].Some? && Decrypt(provider, keys[id].value).Some?
  }

  /** What a run that ends leaves behind. */
  function Final(keys: Keys, c: Config): Keys {
    map id | id in keys :: if !c.dryRun && Convertible(keys, id, c) then Converted(keys, id, c) else keys[id]
  }

  /** The two providers can take the key over: it is sealed under the source, and neither call fails. */
  predicate Movable(keys: Keys, id: string, c: Config) {
    id in keys && keys[id].Some? && keys[id].value.Sealed? && keys[id].value.provider == c.source && id !in c.faults
  }

  /** The table a run leaves: the same organizations; unless it is a dry run, every movable key sealed under the target
      with the same plaintext; everything else as it was. */
  ghost predicate Moved(keys: Keys, c: Config, after: Keys) {
    after.Keys == keys.Keys &&
    forall id :: id in keys ==>
      if !c.dryRun && Movable(keys, id, c) then after[id] == Some(Sealed(c.target, keys[id].value.kek))
      else after[id] == keys[id]
  }

  lemma FinalExact(keys: Keys, c: Config)
    ensures Moved(keys, c, Final(keys, c))
    ensures c.dryRun ==> Final(keys, c) == keys
    ensures forall id :: Movable(keys, id, c) <==> Convertible(keys, id, c)
  {
    assert c.dryRun ==> forall id :: id in keys ==> Final(keys, c)[id] == keys[id];
  }

  /** A state a crash may leave: each key as it was, or converted. */
  predicate CrashImage(image: Keys, keys: Keys, c: Config) {
    image.Keys == keys.Keys &&
    forall id :: id in keys ==> image[id] == keys[id] || image[id] == Final(keys, c)[id]
  }

  /** The organizations whose update would be lost by a crash. */
  function Uncommitted(durable: Keys, working: Keys): set<string> {
    set id | id in durable && id in working && working[id] != durable[id]
  }

  function Magnitude(n: int): nat {
    if n < 0 then -n else n
  }

  /** The rows the SELECT returns: each organization with a wrapped key once, in some order. */
  ghost predicate Selected(ids: seq<string>, keys: Keys) {
    (forall i, j :: 0 <= i < j < |ids| ==> ids[i] != ids[j]) &&
    forall id :: id in ids <==> id in keys && keys[id].Some?
  }

  /** The three counters the script logs. */
  datatype Counters = Counters(updated: nat, skipped: nat, errors: nat)

  /** What one row adds. A batch size of 0 raises after the update, so the row is counted twice. */
  function Tally(n: Counters, keys: Keys, id: string, c: Config): Counters {
    if !Convertible(keys, id, c) then n.(errors := n.errors + 1)
    else if c.dryRun then n.(skipped := n.skipped + 1)
    else n.(updated := n.updated + 1, errors := n.errors + if c.batchSize == 0 then 1 else 0)
  }

  function TallyAll(ids: seq<string>, keys: Keys, c: Config): Counters {
    if ids == [] then Counters(0, 0, 0)
    else Tally(TallyAll(ids[..|ids| - 1], keys, c), keys, ids[|ids| - 1], c)
  }

  function CountConvertible(ids: seq<string>, keys: Keys, c: Config): (n: nat)
    ensures n <= |ids|
  {
    if ids == [] then 0
    else CountConvertible(ids[..|ids| - 1], keys, c) + if Convertible(keys, ids[|ids| - 1], c) then 1 else 0
  }

  /** What the table holds after the first rows: the rows seen so far as `Final` has them, the others as they were. */
  function Progress(keys: Keys, done: seq<string>, c: Config): Keys {
    map id | id in keys :: if id in done then Final(keys, c)[id] else keys[id]
  }

  lemma SubsetSize<T>(a: set<T>, b: set<T>)
    requires a <= b
    ensures |a| <= |b|
  {
    if a != {} {
      var x :| x in a;
      SubsetSize(a - {x}, b - {x});
    }
  }

  lemma ProgressNext(keys: Keys, done: seq<string>, org: string, c: Config)
    requires Convertible(keys, org, c) && !c.dryRun
    ensures Progress(keys, done, c)[org := Converted(keys, org, c)] == Progress(keys, done + [org], c)
    ensures CrashImage(Progress(keys, done + [org], c), keys, c)
  {
  }

  datatype Snapshot = Snapshot(durable: Keys, working: Keys)

  /** The database as the script's session sees it: what is committed, what the open transaction has made of it, and
      every state the two have been in. */
  class MigrationSession {
    var durable: Keys
    var working: Keys
    ghost var history: seq<Snapshot>
    ghost var dirty: set<string>

    constructor (keys: Keys)
      ensures durable == working == keys && history == [Snapshot(keys, keys)] && dirty == {}
    {
      durable, working, history, dirty := keys, keys, [Snapshot(keys, keys)], {};
    }

    method Execute(id: string, value: Wrapped)
      requires id in working
      modifies this
      ensures durable == old(durable) && working == old(working)[id := Some(value)] && dirty == old(dirty) + {id}
      ensures history == old(history) + [Snapshot(durable, working)]
    {
      working := working[id := Some(value)];
      dirty := dirty + {id};
      history := history + [Snapshot(durable, working)];
    }

    method Commit()
      modifies this
      ensures durable == working == old(working) && dirty == {}
      ensures history == old(history) + [Snapshot(durable, working)]
    {
      durable := working;
      dirty := {};
      history := history + [Snapshot(durable, working)];
    }

    ghost predicate Safe(s: Snapshot, keys: Keys, c: Config) {
      && CrashImage(s.durable, keys, c) && s.working.Keys == keys.Keys
      && (c.batchSize != 0 ==> |Uncommitted(s.durable, s.working)| <= Magnitude(c.batchSize))
    }

    ghost predicate Opened(keys: Keys)
      reads this
    {
      durable == working == keys && dirty == {} && history == [Snapshot(keys, keys)]
    }

    /** The loop's bookkeeping between rows. */
    ghost predicate Going(keys: Keys, done: seq<string>, c: Config, updated: nat)
      reads this
    {
      && working == Progress(keys, done, c) && CrashImage(durable, keys, c)
      && (forall id :: id in keys && working[id] != durable[id] ==> id in dirty)
      && dirty <= (set id | id in done)
      && (c.batchSize != 0 ==> |dirty| == updated % Magnitude(c.batchSize))
      && (updated == 0 ==> durable == working)
      && forall i :: 0 <= i < |history| ==> Safe(history[i], keys, c)
    }

    /** The rows that fail, or are only looked at, leave the bookkeeping as it is. */
    lemma SkippedRow(keys: Keys, done: seq<string>, org: string, c: Config, updated: nat)
      requires Going(keys, done, c, updated) && org !in done
      requires c.dryRun || !Convertible(keys, org, c)
      ensures Going(keys, done + [org], c, updated)
    {
      assert Progress(keys, done + [org], c) == Progress(keys, done, c);
    }

    /** A row that converts: execute, and commit a full batch. */
    method UpdateRow(ghost keys: Keys, ghost done: seq<string>, org: string, newWrapped: Wrapped, c: Config,
                     updated: nat)
      returns (raised: bool)
      requires Going(keys, done, c, updated) && org in keys && org !in done && !c.dryRun
      requires Convertible(keys, org, c) && Some(newWrapped) == Converted(keys, org, c)
      modifies this
      ensures Going(keys, done + [org], c, updated + 1)
      ensures raised <==> c.batchSize == 0
    {
      ProgressNext(keys, done, org, c);
      Execute(org, newWrapped);
      UncommittedIsDirty(keys, c);
      if c.batchSize == 0 {
        return true;
      }
      // Python's remainder by a negative number is 0 at the same multiples.
      BatchArithmetic(updated, Magnitude(c.batchSize));
      if (updated + 1) % Magnitude(c.batchSize) == 0 {
        Commit();
      }
      raised := false;
    }

    /** The loop's body: any exception is one more error and the next row. */
    method MigrateRow(keys: Keys, ghost done: seq<string>, org: string, c: Config, n: Counters) returns (next: Counters)
      requires Going(keys, done, c, n.updated) && org in keys && keys[org].Some? && org !in done
      modifies this
      ensures next == Tally(n, keys, org, c) && Going(keys, done + [org], c, next.updated)
    {
      var plaintext := Decrypt(c.source, keys[org].value);
      if plaintext.None? || org in c.faults {
        SkippedRow(keys, done, org, c, n.updated);
        return n.(errors := n.errors + 1);
      }
      var newWrapped := Encrypt(c.target, plaintext.value);
      if c.dryRun {
        SkippedRow(keys, done, org, c, n.updated);
        return n.(skipped := n.skipped + 1);
      }
      var raised := UpdateRow(keys, done, org, newWrapped, c, n.updated);
      next := n.(updated := n.updated + 1);
      if raised {
        next := next.(errors := next.errors + 1);
      }
    }

    lemma UncommittedIsDirty(keys: Keys, c: Config)
      requires forall id :: id in keys && id in working && id in durable && working[id] != durable[id] ==> id in dirty
      requires working.Keys == durable.Keys == keys.Keys
      ensures |Uncommitted(durable, working)| <= |dirty|
    {
      SubsetSize(Uncommitted(durable, working), dirty);
    }

    /** `_migrate`: the counters it logs, and the table it leaves. */
    method Migrate(ids: seq<string>, c: Config) returns (n: Counters)
      requires Selected(ids, durable) && Opened(durable)
      modifies this
      // The table at a normal end: converted rows are durable, every other row is untouched.
      ensures durable == working == Final(old(durable), c) && Moved(old(durable), c, durable)
      ensures n == TallyAll(ids, old(durable), c)
      // At every moment a crash leaves each key whole, and loses at most one batch.
      ensures forall i :: 0 <= i < |history| ==> Safe(history[i], old(durable), c)
    {
      var keys := durable;
      n := Counters(0, 0, 0);
      Begins(keys, c);
      for i := 0 to |ids|
        invariant Going(keys, ids[..i], c, n.updated)
        invariant n == TallyAll(ids[..i], keys, c)
      {
        assert ids[..i + 1] == ids[..i] + [ids[i]] && ids[..i + 1][..i] == ids[..i];
        assert ids[i] !in ids[..i] && ids[i] in ids;
        n := MigrateRow(keys, ids[..i], ids[i], c, n);
      }
      assert ids[..|ids|] == ids;
      TallyCounts(ids, keys, c);
      FinalExact(keys, c);
      Finish(keys, ids, c, n.updated);
    }

    /** `main`: nothing at all when source and target agree. So no run from the command line re-encrypts a row under
        the provider it is already under. */
    method FromCommandLine(ids: seq<string>, c: Config) returns (n: Option<Counters>)
      requires Selected(ids, durable) && Opened(durable)
      modifies this
      ensures c.source == c.target ==> n == None && durable == old(durable) && history == old(history)
      ensures c.source != c.target ==> n == Some(TallyAll(ids, old(durable), c)) && durable == Final(old(durable), c)
      ensures forall id :: Under(old(durable), id, c.target) ==> id in durable && durable[id] == old(durable)[id]
    {
      if c.source == c.target {
        return None;
      }
      var counters := Migrate(ids, c);
      n := Some(counters);
    }

    lemma Begins(keys: Keys, c: Config)
      requires Opened(keys)
      ensures Going(keys, [], c, 0)
    {
      assert Uncommitted(keys, keys) == {};
      assert Progress(keys, [], c) == keys;
    }

    /** The last commit. */
    method Finish(ghost keys: Keys, ghost ids: seq<string>, c: Config, updated: nat)
      requires Selected(ids, keys) && Going(keys, ids, c, updated) && (c.dryRun ==> updated == 0)
      modifies this
      ensures durable == working == Final(keys, c)
      ensures forall i :: 0 <= i < |history| ==> Safe(history[i], keys, c)
    {
      ProgressEnds(keys, ids, c);
      assert Uncommitted(working, working) == {};
      if updated > 0 && !c.dryRun {
        Commit();
      }
    }
  }

  lemma ProgressEnds(keys: Keys, ids: seq<string>, c: Config)
    requires Selected(ids, keys)
    ensures Progress(keys, ids, c) == Final(keys, c)
  {
  }

  lemma ModUnique(q: int, r: int, b: int)
    requires 0 <= r < b
    ensures (q * b + r) % b == r
  {
    var x := q * b + r;
    var d := x / b - q;
    assert d * b == (x / b) * b - q * b == r - x % b;
    assert d >= 1 ==> d * b >= b;
    assert d <= -1 ==> d * b <= -b;
  }

  lemma BatchArithmetic(n: nat, b: nat)
    requires b > 0
    ensures n % b + 1 <= b
    ensures (n + 1) % b == if n % b + 1 == b then 0 else n % b + 1
  {
    var q, r := n / b, n % b;
    if r + 1 == b {
      assert n + 1 == (q + 1) * b + 0;
      ModUnique(q + 1, 0, b);
    } else {
      assert n + 1 == q * b + (r + 1);
      ModUnique(q, r + 1, b);
    }
  }

  /** Each converted row is counted as updated, or as skipped in a dry run, and every other row as an error. The three
      counters add up to the number of rows exactly when the batch size is not 0, the run is a dry one, or no row
      converts. */
  lemma {:induction false} TallyCounts(ids: seq<string>, keys: Keys, c: Config)
    ensures var n, good := TallyAll(ids, keys, c), CountConvertible(ids, keys, c);
      && n.updated == (if c.dryRun then 0 else good) && n.skipped == (if c.dryRun then good else 0)
      && n.errors == |ids| - good + (if c.batchSize == 0 then n.updated else 0)
      && (n.updated + n.skipped + n.errors == |ids| <==> c.batchSize != 0 || c.dryRun || good == 0)
    decreases |ids|
  {
    if ids != [] {
      TallyCounts(ids[..|ids| - 1], keys, c);
    }
  }

  /** One row and `--batch-size 0`: the row is migrated, and logged as an error as well. */
  lemma ZeroBatchCountsTwice()
    ensures var keys: Keys := map["acme" := Some(Sealed("env", "kek"))];
      var c := Config("env", "vault", false, 0, {});
      && Selected(["acme"], keys) && TallyAll(["acme"], keys, c) == Counters(1, 0, 1)
      && Final(keys, c) == map["acme" := Some(Sealed("vault", "kek"))]
  {
    var keys: Keys := map["acme" := Some(Sealed("env", "kek"))];
    var c := Config("env", "vault", false, 0, {});
    assert ["acme"][..0] == [];
    assert Convertible(keys, "acme", c);
  }

  /** Whatever a crash leaves, no key is lost: one sealed under the source still unwraps to the same key, under the
      source or the target; every other value is untouched. */
  lemma KeysSurviveCrashes(image: Keys, keys: Keys, c: Config, id: string)
    requires CrashImage(image, keys, c) && id in keys && keys[id].Some?
    ensures image[id].Some?
    ensures Decrypt(c.source, keys[id].value).Some? ==>
              Decrypt(c.source, image[id].value) == Decrypt(c.source, keys[id].value) ||
              Decrypt(c.target, image[id].value) == Decrypt(c.source, keys[id].value)
    ensures Decrypt(c.source, keys[id].value).None? ==> image[id] == keys[id]
  {
  }

  /** The run without faults that would have finished the migration at once. */
  function Clean(c: Config): Config {
    c.(dryRun := false, faults := {})
  }

  lemma RerunFinishes(image: Keys, keys: Keys, c: Config)
    requires CrashImage(image, keys, c)
    ensures Final(image, Clean(c)) == Final(keys, Clean(c))
  {
  }

  /** The rows a run could convert, had an earlier run not converted them already. */
  function CountMigrated(ids: seq<string>, image: Keys, keys: Keys, c: Config): nat {
    if ids == [] then 0
    else
      var n := |ids| - 1;
      CountMigrated(ids[..n], image, keys, c) +
      if Convertible(keys, ids[n], c) && ids[n] in image && image[ids[n]] != keys[ids[n]] then 1 else 0
  }

  /** A row is converted again exactly when it was not converted before. */
  lemma ConvertsOnce(image: Keys, keys: Keys, c: Config, again: Config, id: string)
    requires CrashImage(image, keys, c) && again.source == c.source && again.target == c.target
    ensures Convertible(image, id, again) <==> Convertible(keys, id, again) && image[id] == keys[id]
  {
  }

  lemma {:induction false} CountAfterRun(ids: seq<string>, image: Keys, keys: Keys, c: Config, again: Config)
    requires CrashImage(image, keys, c) && again.source == c.source && again.target == c.target
    ensures CountConvertible(ids, image, again) ==
            CountConvertible(ids, keys, again) - CountMigrated(ids, image, keys, again)
    decreases |ids|
  {
    if ids != [] {
      CountAfterRun(ids[..|ids| - 1], image, keys, c, again);
      ConvertsOnce(image, keys, c, again, ids[|ids| - 1]);
    }
  }

  /** Running it once more, after a run that ended, crashed anywhere or failed on some rows, is safe, but does not
      re-encrypt what was migrated: those rows no longer decrypt under the source and are the errors the second run
      adds; the other rows are counted as a first run would count them. */
  lemma {:induction false} SecondRunCounts(ids: seq<string>, image: Keys, keys: Keys, c: Config, again: Config)
    requires CrashImage(image, keys, c) && again.source == c.source && again.target == c.target
    ensures var n, first := TallyAll(ids, image, again), TallyAll(ids, keys, again);
      var migrated := CountMigrated(ids, image, keys, again);
      && n.updated == (if again.dryRun then 0 else first.updated - migrated)
      && n.skipped == (if again.dryRun then first.skipped - migrated else 0)
      && (again.batchSize != 0 || again.dryRun ==> n.errors == first.errors + migrated)
      && (again.batchSize == 0 && !again.dryRun ==> n.errors == first.errors)
  {
    CountAfterRun(ids, image, keys, c, again);
    TallyCounts(ids, image, again);
    TallyCounts(ids, keys, again);
  }

  /** One row, migrated, and the same command again: nothing updated, one error. */
  lemma SecondRunFails()
    ensures var keys: Keys := map["acme" := Some(Sealed("env", "kek"))];
      var c := Config("env", "vault", false, 100, {});
      && TallyAll(["acme"], keys, c) == Counters(1, 0, 0)
      && TallyAll(["acme"], Final(keys, c), c) == Counters(0, 0, 1)
      && Final(Final(keys, c), c) == Final(keys, c)
  {
    var keys: Keys := map["acme" := Some(Sealed("env", "kek"))];
    var c := Config("env", "vault", false, 100, {});
    assert ["acme"][..0] == [];
    assert Convertible(keys, "acme", c) && !Convertible(Final(keys, c), "acme", c);
  }

  /** A history of runs between the same providers: each starts from what the one before left, whether that one ended,
      crashed anywhere, failed on some rows, or was a dry run. */
  ghost predicate History(images: seq<Keys>, runs: seq<Config>) {
    && |images| == |runs| + 1
    && (forall i :: 0 <= i < |runs| ==> runs[i].source == runs[0].source && runs[i].target == runs[0].target)
    && forall i :: 0 <= i < |runs| ==> CrashImage(images[i + 1], images[i], runs[i])
  }

  /** Running the migration again finishes it: after any such history, one run without faults ends where a single
      undisturbed run over the original keys would have. */
  lemma {:induction false} RerunsFinish(images: seq<Keys>, runs: seq<Config>, c: Config)
    requires History(images, runs) && (runs != [] ==> c.source == runs[0].source && c.target == runs[0].target)
    ensures Final(images[|runs|], Clean(c)) == Final(images[0], Clean(c))
    decreases |runs|
  {
    if runs != [] {
      var n := |runs| - 1;
      RerunsFinish(images[..n + 1], runs[..n], c);
      RerunFinishes(images[n + 1], images[n], runs[n]);
      assert Final(images[n + 1], Clean(c)) == Final(images[n + 1], Clean(runs[n]));
      assert Final(images[n], Clean(c)) == Final(images[n], Clean(runs[n]));
    }
  }

  /** Migrating and migrating back is no change exactly when no key was under the target to begin with. */
  lemma RoundTripExactly(keys: Keys, c: Config)
    ensures var there := Clean(c);
      Final(Final(keys, there), there.(source := c.target, target := c.source)) == keys
      <==> c.source == c.target || forall id :: id in keys && keys[id].Some? ==> Decrypt(c.target, keys[id].value).None?
  {
    var there := Clean(c);
    var back := there.(source := c.target, target := c.source);
    var done := Final(Final(keys, there), back);
    if c.source != c.target {
      if id :| id in keys && keys[id].Some? && Decrypt(c.target, keys[id].value).Some? {
        assert Convertible(Final(keys, there), id, back);
        assert done[id] != keys[id];
      }
    }
  }
}
