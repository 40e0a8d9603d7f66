/** That the hooks keep tenants apart: no statement under an org's filter changes another tenant's rows, and none whose
    keys are its own can tell what they are. */
module Isolation {
  import opened Prelude
  import opened Relational
  import opened Tenancy

  // ---- Inside and outside ----

  /** A row of another tenant, in a table on the hook's list. Rows of other tables are shared. */
  predicate Foreign(env: Env, orgs: set<string>, k: Key, row: Row) {
    k.table in env.scoped && row.org !in orgs
  }

  function Within(env: Env, db: Db, orgs: set<string>): Db {
    map k | k in db && !Foreign(env, orgs, k, db[k]) :: db[k]
  }

  function Outside(env: Env, db: Db, orgs: set<string>): Db {
    map k | k in db && Foreign(env, orgs, k, db[k]) :: db[k]
  }

  /** The keys and unique values other tenants hold. */
  function ForeignClaims(env: Env, db: Db, orgs: set<string>): set<Claim> {
    AllClaims(env.schema, Outside(env, db, orgs))
  }

  /** The statement ran under one of the orgs, kept the filter, and writes no row under any other org. */
  predicate Proper(env: Env, active: Option<string>, op: DbOp, orgs: set<string>) {
    active.Some? && active.value in orgs &&
    match op
    case Update(table, _, _, newOrg, skip) => !skip && (table in env.scoped && newOrg.Some? ==> newOrg.value in orgs)
    case Insert(key, org, _) => key.table in env.scoped && org.Some? ==> org.value in orgs
    case _ => !op.skipFilter
  }

  /** A shared table that refers to nothing (`users`, `organizations`): any row may refer to its rows. */
  predicate Root(env: Env, table: string) {
    table !in env.scoped && ForeignKeys(env.schema, table) == map[]
  }

  function Roots(env: Env): string -> bool {
    (table: string) => Root(env, table)
  }

  /** It deletes no shared row that rows of every tenant may refer to. */
  predicate Local(env: Env, active: Option<string>, op: DbOp, orgs: set<string>) {
    Proper(env, active, op, orgs) && (op.Delete? ==> !Root(env, op.table))
  }

  /** Foreign rows refer to foreign rows and to rows of root tables only. */
  ghost predicate Separate(env: Env, db: Db, orgs: set<string>) {
    Apart(env.schema, Outside(env, db, orgs), Roots(env))
  }

  /** A local statement that neither asked for a unique value that another tenant may hold nor referred to its rows. */
  predicate Confined(env: Env, e: Event, orgs: set<string>, foreign: set<Claim>) {
    Local(env, e.active, e.op, orgs) && e.touched !! foreign
  }

  predicate ConfinedFrom(env: Env, trace: Trace, start: nat, orgs: set<string>, foreign: set<Claim>) {
    forall i :: start <= i < |trace| ==> Confined(env, trace[i], orgs, foreign)
  }

  lemma VisibleWithin(env: Env, db: Db, active: Option<string>, op: DbOp, orgs: set<string>)
    requires Proper(env, active, op, orgs)
    ensures Visible(env, db, active, false) == Visible(env, Within(env, db, orgs), active, false)
  {
  }

  /** What a proper statement writes, removes and answers is decided by what is inside its orgs. */
  lemma DecidedWithin(env: Env, db: Db, active: Option<string>, op: DbOp, orgs: set<string>)
    requires Proper(env, active, op, orgs)
    ensures var inside := Within(env, db, orgs);
      && Rewritten(env, db, active, op) == Rewritten(env, inside, active, op)
      && Written(env, db, active, op) == Written(env, inside, active, op)
      && Removed(env, db, active, op) == Removed(env, inside, active, op)
      && Answer(env, db, active, op) == Answer(env, inside, active, op)
  {
    VisibleWithin(env, db, active, op, orgs);
  }

  /** It writes rows under its orgs, and rewrites and removes only such rows. */
  lemma WritesOwn(env: Env, db: Db, active: Option<string>, op: DbOp, orgs: set<string>)
    requires Proper(env, active, op, orgs)
    ensures var written := Written(env, db, active, op);
      && (forall k :: k in written ==> !Foreign(env, orgs, k, written[k]))
      && (op.Insert? || written.Keys <= Within(env, db, orgs).Keys)
      && (op.Insert? ==> written.Keys == {op.key})
      && Removed(env, db, active, op) <= Within(env, db, orgs).Keys
  {
  }

  lemma InAndOut(env: Env, db: Db, orgs: set<string>)
    ensures Parts(Within(env, db, orgs), Outside(env, db, orgs), db)
  {
  }

  lemma WrittenWithin(env: Env, db: Db, written: Db, orgs: set<string>)
    requires written.Keys !! Outside(env, db, orgs).Keys
    requires forall k :: k in written ==> !Foreign(env, orgs, k, written[k])
    ensures Outside(env, db + written, orgs) == Outside(env, db, orgs)
    ensures Within(env, db, orgs) + written == Within(env, db + written, orgs)
  {
  }

  lemma PartsDecide(env: Env, inside: Db, outside: Db, whole: Db, orgs: set<string>)
    requires Parts(inside, outside, whole)
    requires forall k :: k in inside ==> !Foreign(env, orgs, k, inside[k])
    requires forall k :: k in outside ==> Foreign(env, orgs, k, outside[k])
    ensures Within(env, whole, orgs) == inside && Outside(env, whole, orgs) == outside
  {
  }

  lemma DeletedWithin(env: Env, db: Db, gone: set<Key>, orgs: set<string>)
    requires gone <= Within(env, db, orgs).Keys && OffRoots(gone, Roots(env)) && Separate(env, db, orgs)
    ensures Outside(env, Deleted(env.schema, db, gone), orgs) == Outside(env, db, orgs)
    ensures Deleted(env.schema, Within(env, db, orgs), gone) == Within(env, Deleted(env.schema, db, gone), orgs)
  {
    var inside, outside := Within(env, db, orgs), Outside(env, db, orgs);
    InAndOut(env, db, orgs);
    DeletedInPart(env.schema, inside, outside, db, gone, Roots(env));
    DeletedKeepsOrgs(env.schema, inside, gone);
    PartsDecide(env, Deleted(env.schema, inside, gone), outside, Deleted(env.schema, db, gone), orgs);
  }

  /** A local statement that does not write over another tenant's key works inside its orgs only. */
  lemma AfterWithin(env: Env, db: Db, active: Option<string>, op: DbOp, orgs: set<string>)
    requires Local(env, active, op, orgs) && (op.Delete? ==> Separate(env, db, orgs))
    requires op.Insert? ==> op.key !in Outside(env, db, orgs)
    ensures Outside(env, After(env, db, active, op), orgs) == Outside(env, db, orgs)
    ensures After(env, Within(env, db, orgs), active, op) == Within(env, After(env, db, active, op), orgs)
  {
    DecidedWithin(env, db, active, op, orgs);
    WritesOwn(env, db, active, op, orgs);
    if op.Delete? {
      DeletedWithin(env, db, Removed(env, db, active, op), orgs);
    } else {
      WrittenWithin(env, db, Written(env, db, active, op), orgs);
    }
  }

  lemma InsertOverForeign(env: Env, db: Db, active: Option<string>, op: DbOp, orgs: set<string>)
    requires op.Insert? && op.key in Outside(env, db, orgs)
    ensures !(ClaimsOf(Asked(env, db, active, op)) !! ForeignClaims(env, db, orgs))
  {
    var asked := Asked(env, db, active, op);
    assert PrimaryKey(op.key) in asked[op.key] && PrimaryKey(op.key) in ClaimsOf(asked);
    KeyAmongClaims(env.schema, Outside(env, db, orgs), op.key);
  }

  /** Only statements that write rows can violate a constraint. */
  lemma NothingWritten(env: Env, db: Db, active: Option<string>, op: DbOp)
    requires op.Select? || op.Delete?
    ensures Asked(env, db, active, op) == map[] && Named(env, db, active, op) == {}
    ensures !Taken(env, db, active, op) && Dangling(env, db, active, op) == {}
  {
  }

  /** A unique value is taken exactly when one of the orgs' own rows, or a shared row, holds it, or a foreign row
      does. */
  lemma TakenSplits(env: Env, db: Db, active: Option<string>, op: DbOp, orgs: set<string>)
    requires Proper(env, active, op, orgs)
    ensures Taken(env, db, active, op) <==>
            Taken(env, Within(env, db, orgs), active, op)
            || !(ClaimsOf(Asked(env, db, active, op)) !! ForeignClaims(env, db, orgs))
  {
    if op.Insert? && op.key in Outside(env, db, orgs) {
      InsertOverForeign(env, db, active, op, orgs);
    } else if op.Select? || op.Delete? {
      NothingWritten(env, db, active, op);
      NothingWritten(env, Within(env, db, orgs), active, op);
    } else {
      var asked, after := Asked(env, db, active, op), After(env, db, active, op);
      DecidedWithin(env, db, active, op, orgs);
      WritesOwn(env, db, active, op, orgs);
      AfterWithin(env, db, active, op, orgs);
      InAndOut(env, after, orgs);
      ClashSplits(env.schema, asked, Within(env, after, orgs), Outside(env, db, orgs), after);
      InAndOut(env, db, orgs);
    }
  }

  /** A foreign key finds its row inside the orgs, or among the foreign rows. */
  lemma DanglingSplits(env: Env, db: Db, active: Option<string>, op: DbOp, orgs: set<string>)
    requires Proper(env, active, op, orgs) && (op.Insert? ==> op.key !in Outside(env, db, orgs))
    ensures Dangling(env, db, active, op) == {} <==>
            Dangling(env, Within(env, db, orgs), active, op) <= ForeignClaims(env, db, orgs)
  {
    if op.Select? || op.Delete? {
      NothingWritten(env, db, active, op);
      NothingWritten(env, Within(env, db, orgs), active, op);
    } else {
      var after := After(env, db, active, op);
      DecidedWithin(env, db, active, op, orgs);
      AfterWithin(env, db, active, op, orgs);
      InAndOut(env, after, orgs);
      KeysSplit(env.schema, Named(env, db, active, op), Within(env, after, orgs), Outside(env, db, orgs), after);
    }
  }

  lemma ViolatesSplits(env: Env, db: Db, active: Option<string>, op: DbOp, orgs: set<string>)
    requires Proper(env, active, op, orgs)
    ensures var inside, foreign := Within(env, db, orgs), ForeignClaims(env, db, orgs);
      Violates(env, db, active, op) <==>
      Taken(env, inside, active, op) || !(ClaimsOf(Asked(env, inside, active, op)) !! foreign)
      || !(Dangling(env, inside, active, op) <= foreign)
  {
    DecidedWithin(env, db, active, op, orgs);
    TakenSplits(env, db, active, op, orgs);
    if op.Insert? && op.key in Outside(env, db, orgs) {
      InsertOverForeign(env, db, active, op, orgs);
    } else {
      DanglingSplits(env, db, active, op, orgs);
    }
  }

  /** No local statement changes a foreign row, whatever keys and values it names. */
  lemma OutsideUntouched(env: Env, db: Db, active: Option<string>, op: DbOp, orgs: set<string>)
    requires Local(env, active, op, orgs) && (op.Delete? ==> Separate(env, db, orgs))
    ensures Outside(env, Apply(env, db, active, op).0, orgs) == Outside(env, db, orgs)
  {
    if !Violates(env, db, active, op) {
      AfterWithin(env, db, active, op, orgs);
    }
  }

  /** Without that care: a DELETE inside the orgs changes a foreign row exactly when some chain of references leads
      from it to a row the DELETE hits; no other proper statement changes one. */
  lemma ForeignRowChangedExactly(env: Env, db: Db, active: Option<string>, op: DbOp, orgs: set<string>, k: Key)
    requires Proper(env, active, op, orgs) && k in Outside(env, db, orgs)
    ensures var after := Apply(env, db, active, op).0;
      (k !in after || after[k] != db[k]) <==>
      op.Delete? && exists path :: Leads(env.schema, db, k, path, Removed(env, db, active, op))
  {
    if op.Delete? {
      NothingWritten(env, db, active, op);
      WritesOwn(env, db, active, op, orgs);
      ChangedByChain(env.schema, db, Removed(env, db, active, op), k);
    } else {
      OutsideUntouched(env, db, active, op, orgs);
      assert k in Outside(env, Apply(env, db, active, op).0, orgs);
    }
  }

  /** Why references must not cross: a run of one org names another org's workflow, and goes with it. */
  lemma CrossedReferenceCascades(env: Env)
    requires env.scoped == {"workflows", "runs"}
    requires env.schema == Schema(map[], map["runs" := map["workflow_id" := Reference("workflows", Cascade)]])
    ensures var workflow, run := Key("workflows", "w"), Key("runs", "r");
      var db: Db := map[workflow := Row("a", map[]), run := Row("b", map["workflow_id" := "w"])];
      var op := Delete("workflows", (v: Db, k: Key) => true, false);
      && Local(env, Some("a"), op, {"a"}) && Touched(env, db, Some("a"), op) == {}
      && run in Outside(env, db, {"a"}) && run !in Apply(env, db, Some("a"), op).0
  {
    var workflow, run := Key("workflows", "w"), Key("runs", "r");
    var db: Db := map[workflow := Row("a", map[]), run := Row("b", map["workflow_id" := "w"])];
    var op := Delete("workflows", (v: Db, k: Key) => true, false);
    NothingWritten(env, db, Some("a"), op);
    var hit := Removed(env, db, Some("a"), op);
    assert workflow in hit;
    assert ForeignKeys(env.schema, "runs")["workflow_id"] == Reference("workflows", Cascade);
    assert db[run].fields["workflow_id"] == "w" && workflow in Parents(env.schema, run, db[run]);
    assert CascadePath(env.schema, db, [run, workflow], hit);
    PathIsDoomed(env.schema, db, [run, workflow], hit);
  }

  /** One confined statement: what it sees and leaves inside its orgs is decided by what was inside them. */
  lemma ApplyConfined(env: Env, db: Db, active: Option<string>, op: DbOp, orgs: set<string>)
    requires Local(env, active, op, orgs) && (op.Delete? ==> Separate(env, db, orgs))
    requires Touched(env, db, active, op) !! ForeignClaims(env, db, orgs)
    ensures Outside(env, Apply(env, db, active, op).0, orgs) == Outside(env, db, orgs)
    ensures Apply(env, Within(env, db, orgs), active, op).0 == Within(env, Apply(env, db, active, op).0, orgs)
    ensures Apply(env, Within(env, db, orgs), active, op).1 == Apply(env, db, active, op).1
  {
    OutsideUntouched(env, db, active, op, orgs);
    ViolatesSplits(env, db, active, op, orgs);
    DecidedWithin(env, db, active, op, orgs);
    assert Dangling(env, Within(env, db, orgs), active, op) <= Touched(env, db, active, op);
    if !Violates(env, db, active, op) {
      AfterWithin(env, db, active, op, orgs);
    }
  }

  /** All a proper statement can tell about other tenants. In two databases that agree inside the orgs it gets the same
      answer exactly when a unique value it asks for is taken inside anyway, or both let it through, or neither does;
      a database lets it through when no foreign row holds a value it asks for, and foreign rows have every key it
      refers to that is missing inside. */
  lemma RevealsForeignClaimsOnly(env: Env, a: Db, b: Db, active: Option<string>, op: DbOp, orgs: set<string>)
    requires Proper(env, active, op, orgs) && Within(env, a, orgs) == Within(env, b, orgs)
    ensures var inside := Within(env, a, orgs);
      var asked, missing := ClaimsOf(Asked(env, inside, active, op)), Dangling(env, inside, active, op);
      Apply(env, a, active, op).1 == Apply(env, b, active, op).1 <==>
      Taken(env, inside, active, op)
      || (asked !! ForeignClaims(env, a, orgs) && missing <= ForeignClaims(env, a, orgs) <==>
          asked !! ForeignClaims(env, b, orgs) && missing <= ForeignClaims(env, b, orgs))
  {
    ViolatesSplits(env, a, active, op, orgs);
    ViolatesSplits(env, b, active, op, orgs);
    DecidedWithin(env, a, active, op, orgs);
    DecidedWithin(env, b, active, op, orgs);
  }

  // ---- References stay within each tenant ----

  /** A row of the org, or of a root table. */
  predicate OfTenant(env: Env, db: Db, org: string, r: Key) {
    Root(env, r.table) || (r in db && r.table in env.scoped && db[r].org == org)
  }

  /** Every tenant's rows refer to rows of the same tenant, and to rows of root tables. */
  ghost predicate Separated(env: Env, db: Db) {
    forall k, r :: k in db && k.table in env.scoped && r in References(env.schema, k, db[k]) ==>
      OfTenant(env, db, db[k].org, r)
  }

  /** Tables on the list refer to tables on the list, and to root tables. */
  ghost predicate Layered(env: Env) {
    forall t, c :: t in env.scoped && c in ForeignKeys(env.schema, t) ==>
      var target := ForeignKeys(env.schema, t)[c].target; target in env.scoped || Root(env, target)
  }

  lemma SeparatedForAll(env: Env, db: Db, orgs: set<string>)
    requires Separated(env, db)
    ensures Separate(env, db, orgs)
  {
    var outside := Outside(env, db, orgs);
    forall k, r | k in outside && r in References(env.schema, k, outside[k])
      ensures r in outside || Roots(env)(r.table)
    {
    }
  }

  lemma LayeredTargets(env: Env, k: Key, row: Row, r: Key)
    requires Layered(env) && k.table in env.scoped && r in References(env.schema, k, row)
    ensures r.table in env.scoped || Root(env, r.table)
  {
  }

  lemma DeleteKeepsPair(env: Env, db: Db, gone: set<Key>, k: Key, r: Key)
    requires Separated(env, db) && gone <= db.Keys
    requires var after := Deleted(env.schema, db, gone);
      k in after && k.table in env.scoped && r in References(env.schema, k, after[k])
    ensures var after := Deleted(env.schema, db, gone);
      OfTenant(env, after, after[k].org, r)
  {
    DeletedKeepsOrgs(env.schema, db, gone);
    DeletedRefersOn(env.schema, db, gone, k, r);
    assert OfTenant(env, db, db[k].org, r);
  }

  lemma DeleteKeepsSeparated(env: Env, db: Db, gone: set<Key>)
    requires Separated(env, db) && gone <= db.Keys
    ensures Separated(env, Deleted(env.schema, db, gone))
  {
    var after := Deleted(env.schema, db, gone);
    forall k, r | k in after && k.table in env.scoped && r in References(env.schema, k, after[k])
      ensures OfTenant(env, after, after[k].org, r)
    {
      DeleteKeepsPair(env, db, gone, k, r);
    }
  }

  /** The rows a statement of org `a` writes on the list are rows of `a`, and were before. */
  lemma WritesUnder(env: Env, db: Db, a: string, op: DbOp, k: Key)
    requires Local(env, Some(a), op, {a}) && k in Written(env, db, Some(a), op) && k.table in env.scoped
    ensures Written(env, db, Some(a), op)[k].org == a
    ensures op.Update? ==> k in db && db[k].org == a && Rewritten(env, db, Some(a), op)[k] == db[k]
    ensures op.Insert? ==> k == op.key
  {
  }

  /** Where a reference of a written row leads. */
  lemma WrittenRefersWithin(env: Env, db: Db, a: string, op: DbOp, k: Key, r: Key)
    requires Separated(env, db) && Local(env, Some(a), op, {a}) && !op.Delete?
    requires Touched(env, db, Some(a), op) !! ForeignClaims(env, db, {a}) && !Violates(env, db, Some(a), op)
    requires k in Written(env, db, Some(a), op) && k.table in env.scoped && r.table in env.scoped
    requires r in References(env.schema, k, Written(env, db, Some(a), op)[k])
    ensures r in Written(env, db, Some(a), op) || (r in db && db[r].org == a)
  {
    var before, written := Rewritten(env, db, Some(a), op), Written(env, db, Some(a), op);
    WritesUnder(env, db, a, op, k);
    if k in before && r in References(env.schema, k, before[k]) {
      assert !Root(env, r.table);
    } else {
      assert r in Named(env, db, Some(a), op);
      assert PrimaryKey(r) in Touched(env, db, Some(a), op);
      KeyAmongClaims(env.schema, Outside(env, db, {a}), r);
      assert r !in After(env, db, Some(a), op) ==> PrimaryKey(r) in Dangling(env, db, Some(a), op);
    }
  }

  lemma WriteKeepsPair(env: Env, db: Db, a: string, op: DbOp, k: Key, r: Key)
    requires Layered(env) && Separated(env, db) && Local(env, Some(a), op, {a}) && !op.Delete?
    requires Touched(env, db, Some(a), op) !! ForeignClaims(env, db, {a}) && !Violates(env, db, Some(a), op)
    requires var after := db + Written(env, db, Some(a), op);
      k in after && k.table in env.scoped && r in References(env.schema, k, after[k])
    ensures var after := db + Written(env, db, Some(a), op);
      OfTenant(env, after, after[k].org, r)
  {
    var written := Written(env, db, Some(a), op);
    LayeredTargets(env, k, (db + written)[k], r);
    if r.table in env.scoped {
      if r in written {
        WritesUnder(env, db, a, op, r);
      }
      if k in written {
        WritesUnder(env, db, a, op, k);
        WrittenRefersWithin(env, db, a, op, k, r);
      } else {
        assert OfTenant(env, db, db[k].org, r);
      }
    }
  }

  lemma WriteKeepsSeparated(env: Env, db: Db, a: string, op: DbOp)
    requires Layered(env) && Separated(env, db) && Local(env, Some(a), op, {a}) && !op.Delete?
    requires Touched(env, db, Some(a), op) !! ForeignClaims(env, db, {a}) && !Violates(env, db, Some(a), op)
    ensures Separated(env, db + Written(env, db, Some(a), op))
  {
    var after := db + Written(env, db, Some(a), op);
    forall k, r | k in after && k.table in env.scoped && r in References(env.schema, k, after[k])
      ensures OfTenant(env, after, after[k].org, r)
    {
      WriteKeepsPair(env, db, a, op, k, r);
    }
  }

  /** A confined statement of any tenant keeps all tenants' references apart. */
  lemma ConfinedKeepsSeparated(env: Env, db: Db, a: string, op: DbOp)
    requires Layered(env) && Separated(env, db) && Local(env, Some(a), op, {a})
    requires Touched(env, db, Some(a), op) !! ForeignClaims(env, db, {a})
    ensures Separated(env, Apply(env, db, Some(a), op).0)
  {
    if !Violates(env, db, Some(a), op) {
      if op.Delete? {
        DeleteKeepsSeparated(env, db, Removed(env, db, Some(a), op));
      } else {
        WriteKeepsSeparated(env, db, a, op);
      }
    }
  }

  /** A statement, and the org it runs under. */
  datatype Turn = Turn(org: string, op: DbOp)

  function AfterTurns(env: Env, db: Db, turns: seq<Turn>): Db {
    if turns == [] then db
    else
      var last := turns[|turns| - 1];
      Apply(env, AfterTurns(env, db, turns[..|turns| - 1]), Some(last.org), last.op).0
  }

  /** Every turn is confined to its own org at its moment. */
  ghost predicate Orderly(env: Env, db: Db, turns: seq<Turn>) {
    turns == [] ||
    var before, last := turns[..|turns| - 1], turns[|turns| - 1];
    var now := AfterTurns(env, db, before);
    && Orderly(env, db, before) && Local(env, Some(last.org), last.op, {last.org})
    && Touched(env, now, Some(last.org), last.op) !! ForeignClaims(env, now, {last.org})
  }

  /** However the tenants' statements interleave, no reference ever crosses from one tenant to another. */
  lemma {:induction false} TenantsStaySeparated(env: Env, db: Db, turns: seq<Turn>)
    requires Layered(env) && Separated(env, db) && Orderly(env, db, turns)
    ensures Separated(env, AfterTurns(env, db, turns))
    decreases |turns|
  {
    if turns != [] {
      var before, last := turns[..|turns| - 1], turns[|turns| - 1];
      TenantsStaySeparated(env, db, before);
      ConfinedKeepsSeparated(env, AfterTurns(env, db, before), last.org, last.op);
    }
  }

  // ---- Whole runs: other tenants' rows stay ----

  /** Every statement is local, and a DELETE only if `deletes`. */
  predicate LocalFrom(env: Env, trace: Trace, start: nat, orgs: set<string>, deletes: bool) {
    forall i :: start <= i < |trace| ==>
      Local(env, trace[i].active, trace[i].op, orgs) && (trace[i].op.Delete? ==> deletes)
  }

  lemma StatementKeepsOutside(choose: Trace -> DbOp, env: Env, w: World, orgs: set<string>, deletes: bool)
    requires deletes ==> Separate(env, w.db, orgs)
    requires LocalFrom(env, Exec(Do(choose), env, w).world.trace, |w.trace|, orgs, deletes)
    ensures Outside(env, Exec(Do(choose), env, w).world.db, orgs) == Outside(env, w.db, orgs)
  {
    var e := Exec(Do(choose), env, w).world.trace[|w.trace|];
    OutsideUntouched(env, w.db, e.active, e.op, orgs);
  }

  /** Any program whose statements are local leaves every foreign row as it was, whatever keys, references and unique
      values it tries, under whatever scopes, loops and exceptions. If it deletes, no foreign row may refer to a row
      inside. */
  lemma {:induction false} RunsKeepOutside(p: Prog, env: Env, w: World, orgs: set<string>, deletes: bool)
    requires deletes ==> Separate(env, w.db, orgs)
    requires LocalFrom(env, Exec(p, env, w).world.trace, |w.trace|, orgs, deletes)
    ensures Outside(env, Exec(p, env, w).world.db, orgs) == Outside(env, w.db, orgs)
    decreases p, 0
  {
    match p
    case Do(choose) => StatementKeepsOutside(choose, env, w, orgs, deletes);
    case Then(first, second) =>
      var o := Exec(first, env, w);
      if !o.raised {
        PrefixLocal(env, o.world.trace, Exec(second, env, o.world).world.trace, |w.trace|, orgs, deletes);
        RunsKeepOutside(first, env, w, orgs, deletes);
        RunsKeepOutside(second, env, o.world, orgs, deletes);
      } else {
        RunsKeepOutside(first, env, w, orgs, deletes);
      }
    case Branch(test, yes, no) => RunsKeepOutside(if test(w.trace) then yes else no, env, w, orgs, deletes);
    case Repeat(times, body) => LoopsKeepOutside(body, times(w.trace), env, w, orgs, deletes);
    case Try(body, handler) =>
      var o := Exec(body, env, w);
      if o.raised {
        PrefixLocal(env, o.world.trace, Exec(handler, env, o.world).world.trace, |w.trace|, orgs, deletes);
        RunsKeepOutside(body, env, w, orgs, deletes);
        RunsKeepOutside(handler, env, o.world, orgs, deletes);
      } else {
        RunsKeepOutside(body, env, w, orgs, deletes);
      }
    case AsSystem(body) =>
      RunsKeepOutside(body, env, w.(context := Some(SYSTEM_CONTEXT), innermost := System), orgs, deletes);
    case AsOrg(target, body) =>
      RunsKeepOutside(body, env, if target.None? then w else w.(context := target, innermost := Org(target.value)),
                      orgs, deletes);
    case RequestScope(body) => RunsKeepOutside(body, env, w.(context := None, innermost := Unset), orgs, deletes);
    case _ =>
  }

  lemma PrefixLocal(env: Env, trace: Trace, longer: Trace, start: nat, orgs: set<string>, deletes: bool)
    requires trace <= longer && LocalFrom(env, longer, start, orgs, deletes)
    ensures LocalFrom(env, trace, start, orgs, deletes)
    ensures start <= |trace| ==> LocalFrom(env, longer, |trace|, orgs, deletes)
  {
    forall i | start <= i < |trace|
      ensures Local(env, trace[i].active, trace[i].op, orgs) && (trace[i].op.Delete? ==> deletes)
    {
      assert trace[i] == longer[i];
    }
  }

  lemma {:induction false} LoopsKeepOutside(body: Prog, n: nat, env: Env, w: World, orgs: set<string>, deletes: bool)
    requires deletes ==> Separate(env, w.db, orgs)
    requires LocalFrom(env, ExecTimes(body, n, env, w).world.trace, |w.trace|, orgs, deletes)
    ensures Outside(env, ExecTimes(body, n, env, w).world.db, orgs) == Outside(env, w.db, orgs)
    decreases body, n + 1
  {
    if n > 0 {
      var o := Exec(body, env, w);
      if !o.raised {
        PrefixLocal(env, o.world.trace, ExecTimes(body, n - 1, env, o.world).world.trace, |w.trace|, orgs, deletes);
        RunsKeepOutside(body, env, w, orgs, deletes);
        LoopsKeepOutside(body, n - 1, env, o.world, orgs, deletes);
      } else {
        RunsKeepOutside(body, env, w, orgs, deletes);
      }
    }
  }

  // ---- Whole runs: other tenants' rows are not observed ----

  /** The same world with every other tenant's rows removed. */
  function Inside(env: Env, w: World, orgs: set<string>): World {
    w.(db := Within(env, w.db, orgs))
  }

  ghost predicate Isolated(env: Env, before: World, after: Outcome, alone: Outcome, orgs: set<string>) {
    && Outside(env, after.world.db, orgs) == Outside(env, before.db, orgs)
    && alone == Outcome(Inside(env, after.world, orgs), after.raised)
  }

  ghost predicate EitherConfined(env: Env, start: nat, a: Outcome, b: Outcome, orgs: set<string>,
                                 foreign: set<Claim>) {
    ConfinedFrom(env, a.world.trace, start, orgs, foreign) || ConfinedFrom(env, b.world.trace, start, orgs, foreign)
  }

  /** Of a longer run, its first part and its rest are confined too. */
  lemma EitherParts(env: Env, start: nat, first: Outcome, firstAlone: Outcome, last: Outcome, lastAlone: Outcome,
                    orgs: set<string>, foreign: set<Claim>)
    requires first.world.trace <= last.world.trace && firstAlone.world.trace <= lastAlone.world.trace
    requires EitherConfined(env, start, last, lastAlone, orgs, foreign)
    ensures EitherConfined(env, start, first, firstAlone, orgs, foreign)
    ensures forall n: nat :: start <= n ==> EitherConfined(env, n, last, lastAlone, orgs, foreign)
  {
  }

  lemma StatementAsIfAlone(choose: Trace -> DbOp, env: Env, w: World, orgs: set<string>, foreign: set<Claim>)
    requires ForeignClaims(env, w.db, orgs) <= foreign && Separate(env, w.db, orgs)
    requires EitherConfined(env, |w.trace|, Exec(Do(choose), env, w), Exec(Do(choose), env, Inside(env, w, orgs)), orgs,
                            foreign)
    ensures Isolated(env, w, Exec(Do(choose), env, w), Exec(Do(choose), env, Inside(env, w, orgs)), orgs)
  {
    var n, p := |w.trace|, Do(choose);
    var e, alone := Exec(p, env, w).world.trace[n], Exec(p, env, Inside(env, w, orgs)).world.trace[n];
    assert e.active == alone.active && e.op == alone.op;
    assert Local(env, e.active, e.op, orgs) by {
      assert Confined(env, e, orgs, foreign) || Confined(env, alone, orgs, foreign);
    }
    DecidedWithin(env, w.db, e.active, e.op, orgs);
    ApplyConfined(env, w.db, e.active, e.op, orgs);
  }

  /** A run and the run in the database without the other tenants: if either is confined, they are the same run, and
      it leaves the other tenants as they were. */
  lemma {:induction false} RunsAsIfAlone(p: Prog, env: Env, w: World, orgs: set<string>, foreign: set<Claim>)
    requires ForeignClaims(env, w.db, orgs) <= foreign && Separate(env, w.db, orgs)
    requires EitherConfined(env, |w.trace|, Exec(p, env, w), Exec(p, env, Inside(env, w, orgs)), orgs, foreign)
    ensures Isolated(env, w, Exec(p, env, w), Exec(p, env, Inside(env, w, orgs)), orgs)
    decreases p, 0
  {
    match p
    case Do(choose) => StatementAsIfAlone(choose, env, w, orgs, foreign);
    case Then(first, second) =>
      var o, alone := Exec(first, env, w), Exec(first, env, Inside(env, w, orgs));
      EitherParts(env, |w.trace|, o, alone, Exec(p, env, w), Exec(p, env, Inside(env, w, orgs)), orgs, foreign);
      RunsAsIfAlone(first, env, w, orgs, foreign);
      if !o.raised {
        RunsAsIfAlone(second, env, o.world, orgs, foreign);
      }
    case Branch(test, yes, no) =>
      if test(w.trace) {
        RunsAsIfAlone(yes, env, w, orgs, foreign);
      } else {
        RunsAsIfAlone(no, env, w, orgs, foreign);
      }
    case Repeat(times, body) => LoopsAsIfAlone(body, times(w.trace), env, w, orgs, foreign);
    case Try(body, handler) =>
      var o, alone := Exec(body, env, w), Exec(body, env, Inside(env, w, orgs));
      EitherParts(env, |w.trace|, o, alone, Exec(p, env, w), Exec(p, env, Inside(env, w, orgs)), orgs, foreign);
      RunsAsIfAlone(body, env, w, orgs, foreign);
      if o.raised {
        RunsAsIfAlone(handler, env, o.world, orgs, foreign);
      }
    case AsSystem(body) => ScopeAsIfAlone(body, Some(SYSTEM_CONTEXT), System, env, w, orgs, foreign);
    case AsOrg(target, body) =>
      if target.None? {
        RunsAsIfAlone(body, env, w, orgs, foreign);
      } else {
        ScopeAsIfAlone(body, target, Org(target.value), env, w, orgs, foreign);
      }
    case RequestScope(body) => ScopeAsIfAlone(body, None, Unset, env, w, orgs, foreign);
    case _ =>
  }

  lemma {:induction false} ScopeAsIfAlone(body: Prog, context: Option<string>, setting: Setting, env: Env, w: World,
                                          orgs: set<string>, foreign: set<Claim>)
    requires ForeignClaims(env, w.db, orgs) <= foreign && Separate(env, w.db, orgs)
    requires var o := Exec(body, env, w.(context := context, innermost := setting));
      var alone := Exec(body, env, Inside(env, w, orgs).(context := context, innermost := setting));
      EitherConfined(env, |w.trace|, o, alone, orgs, foreign)
    ensures var o := Exec(body, env, w.(context := context, innermost := setting));
      var alone := Exec(body, env, Inside(env, w, orgs).(context := context, innermost := setting));
      Isolated(env, w, LeaveScope(o, w.context, w.innermost), LeaveScope(alone, w.context, w.innermost), orgs)
    decreases body, 1
  {
    var inner := w.(context := context, innermost := setting);
    assert Inside(env, inner, orgs) == Inside(env, w, orgs).(context := context, innermost := setting);
    RunsAsIfAlone(body, env, inner, orgs, foreign);
  }

  lemma {:induction false} LoopsAsIfAlone(body: Prog, n: nat, env: Env, w: World, orgs: set<string>,
                                          foreign: set<Claim>)
    requires ForeignClaims(env, w.db, orgs) <= foreign && Separate(env, w.db, orgs)
    requires EitherConfined(env, |w.trace|, ExecTimes(body, n, env, w), ExecTimes(body, n, env, Inside(env, w, orgs)),
                            orgs, foreign)
    ensures Isolated(env, w, ExecTimes(body, n, env, w), ExecTimes(body, n, env, Inside(env, w, orgs)), orgs)
    decreases body, n + 1
  {
    if n > 0 {
      var o, alone := Exec(body, env, w), Exec(body, env, Inside(env, w, orgs));
      EitherParts(env, |w.trace|, o, alone, ExecTimes(body, n, env, w),
                  ExecTimes(body, n, env, Inside(env, w, orgs)), orgs, foreign);
      RunsAsIfAlone(body, env, w, orgs, foreign);
      if !o.raised {
        LoopsAsIfAlone(body, n - 1, env, o.world, orgs, foreign);
      }
    }
  }

  /** Two-run noninterference. Take any program and any run of it whose statements are confined to `orgs`. In every
      other database that holds the same rows for those orgs, whatever the other tenants' rows there, the program
      sees, decides and raises the same; both runs leave every other org's rows as they were, and the rows of `orgs`
      equal in both databases. */
  lemma Noninterference(p: Prog, env: Env, w: World, other: Db, orgs: set<string>, foreign: set<Claim>)
    requires Within(env, w.db, orgs) == Within(env, other, orgs)
    requires ForeignClaims(env, w.db, orgs) <= foreign && ForeignClaims(env, other, orgs) <= foreign
    requires Separate(env, w.db, orgs) && Separate(env, other, orgs)
    requires ConfinedFrom(env, Exec(p, env, w).world.trace, |w.trace|, orgs, foreign)
    ensures var a, b := Exec(p, env, w), Exec(p, env, w.(db := other));
      && a.raised == b.raised && a.world.trace == b.world.trace && a.world.context == b.world.context
      && Within(env, a.world.db, orgs) == Within(env, b.world.db, orgs)
      && Outside(env, a.world.db, orgs) == Outside(env, w.db, orgs)
      && Outside(env, b.world.db, orgs) == Outside(env, other, orgs)
  {
    RunsAsIfAlone(p, env, w, orgs, foreign);
    assert Inside(env, w, orgs) == Inside(env, w.(db := other), orgs);
    RunsAsIfAlone(p, env, w.(db := other), orgs, foreign);
  }

  // ---- A request that stays in its org ----

  /** No scope is opened or set, and every statement the program may choose keeps the filter, writes no other org's
      rows and asks for no unique value that another tenant may hold. */
  ghost predicate StaysPut(p: Prog, env: Env, org: string, foreign: set<Claim>) {
    match p
    case Do(choose) => forall t: Trace :: StatementStaysPut(env, org, choose(t), foreign)
    case Then(first, second) => StaysPut(first, env, org, foreign) && StaysPut(second, env, org, foreign)
    case Branch(_, yes, no) => StaysPut(yes, env, org, foreign) && StaysPut(no, env, org, foreign)
    case Repeat(_, body) => StaysPut(body, env, org, foreign)
    case Try(body, handler) => StaysPut(body, env, org, foreign) && StaysPut(handler, env, org, foreign)
    case Raise => true
    case _ => false
  }

  ghost predicate StatementStaysPut(env: Env, org: string, op: DbOp, foreign: set<Claim>) {
    && Local(env, Some(org), op, {org})
    && forall db: Db :: Touched(env, db, Some(org), op) !! foreign
  }

  lemma {:induction false} StaysPutConfined(p: Prog, env: Env, w: World, org: string, foreign: set<Claim>)
    requires StaysPut(p, env, org, foreign) && ActiveOrg(env.multiTenancy, w.context) == Some(org)
    ensures Exec(p, env, w).world.context == w.context
    ensures ConfinedFrom(env, Exec(p, env, w).world.trace, |w.trace|, {org}, foreign)
    decreases p, 0
  {
    match p
    case Do(choose) =>
      assert StatementStaysPut(env, org, choose(w.trace), foreign);
    case Then(first, second) =>
      var o := Exec(first, env, w);
      StaysPutConfined(first, env, w, org, foreign);
      if !o.raised {
        StaysPutConfined(second, env, o.world, org, foreign);
      }
    case Branch(test, yes, no) =>
      if test(w.trace) {
        StaysPutConfined(yes, env, w, org, foreign);
      } else {
        StaysPutConfined(no, env, w, org, foreign);
      }
    case Repeat(times, body) => StaysPutTimes(body, times(w.trace), env, w, org, foreign);
    case Try(body, handler) =>
      var o := Exec(body, env, w);
      StaysPutConfined(body, env, w, org, foreign);
      if o.raised {
        StaysPutConfined(handler, env, o.world, org, foreign);
      }
    case _ =>
  }

  lemma {:induction false} StaysPutTimes(body: Prog, n: nat, env: Env, w: World, org: string, foreign: set<Claim>)
    requires StaysPut(body, env, org, foreign) && ActiveOrg(env.multiTenancy, w.context) == Some(org)
    ensures ExecTimes(body, n, env, w).world.context == w.context
    ensures ConfinedFrom(env, ExecTimes(body, n, env, w).world.trace, |w.trace|, {org}, foreign)
    decreases body, n + 1
  {
    if n > 0 {
      var o := Exec(body, env, w);
      StaysPutConfined(body, env, w, org, foreign);
      if !o.raised {
        StaysPutTimes(body, n - 1, env, o.world, org, foreign);
      }
    }
  }

  /** Any code that runs in org A's context without leaving it leaves every other tenant's row as it was, whatever keys
      and values it names: nothing is foreign to it. */
  lemma TenantIntegrity(p: Prog, env: Env, w: World, org: string)
    requires StaysPut(p, env, org, {}) && ActiveOrg(env.multiTenancy, w.context) == Some(org)
    requires Separate(env, w.db, {org})
    ensures Outside(env, Exec(p, env, w).world.db, {org}) == Outside(env, w.db, {org})
  {
    StaysPutConfined(p, env, w, org, {});
    RunsKeepOutside(p, env, w, {org}, true);
  }

  /** Any code that runs in org A's context without leaving it can neither change nor observe another tenant's rows,
      whatever it does next on the strength of what it has seen. */
  lemma TenantIsolation(p: Prog, env: Env, w: World, other: Db, org: string, foreign: set<Claim>)
    requires StaysPut(p, env, org, foreign) && ActiveOrg(env.multiTenancy, w.context) == Some(org)
    requires Within(env, w.db, {org}) == Within(env, other, {org})
    requires ForeignClaims(env, w.db, {org}) <= foreign && ForeignClaims(env, other, {org}) <= foreign
    requires Separate(env, w.db, {org}) && Separate(env, other, {org})
    ensures var a, b := Exec(p, env, w), Exec(p, env, w.(db := other));
      && a.raised == b.raised && a.world.trace == b.world.trace
      && Within(env, a.world.db, {org}) == Within(env, b.world.db, {org})
      && Outside(env, a.world.db, {org}) == Outside(env, w.db, {org})
      && Outside(env, b.world.db, {org}) == Outside(env, other, {org})
  {
    StaysPutConfined(p, env, w, org, foreign);
    Noninterference(p, env, w, other, {org}, foreign);
  }
}
