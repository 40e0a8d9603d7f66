/** What one statement under the hooks of apps/api/app/tenancy.py does, row by row: which rows it sees, what it answers,
    what every row holds afterwards, and when it raises. */
module Statements {
  import opened Prelude
  import opened Relational
  import opened Tenancy

  /** The org a statement is scoped to: none without multi-tenancy or in a system scope; otherwise the one that was set,
      and the default org when none was. */
  lemma ActiveOrgExact(multiTenancy: bool, context: Option<string>)
    ensures ActiveOrg(multiTenancy, context) == None <==> !multiTenancy || context == Some("__system__")
    ensures multiTenancy && (context.None? || context.value == "") ==>
              ActiveOrg(multiTenancy, context) == Some("default")
    ensures multiTenancy && context.Some? && context.value !in {"", "__system__"} ==>
              ActiveOrg(multiTenancy, context) == context
  {
  }

  // ---- Which rows it sees, and which it means ----

  /** `v` holds the rows of `db` that the statement can see, as they are: those of the active org, and every row of a
      table the filter does not cover; all rows when there is no filter. */
  ghost predicate Sees(env: Env, db: Db, active: Option<string>, skipFilter: bool, v: Db) {
    forall k :: (k in v <==> k in db && (active.None? || skipFilter || k.table !in env.scoped
                                         || db[k].org == active.value))
                && (k in v ==> v[k] == db[k])
  }

  /** The statement means this row: it can see it, the row is in its table, and the row meets its condition. */
  predicate Meant(v: Db, op: DbOp, k: Key)
    requires !op.Insert?
  {
    k in v && k.table == op.table && op.holds(v, k)
  }

  lemma SeesVisible(env: Env, db: Db, active: Option<string>, skipFilter: bool, v: Db)
    requires Sees(env, db, active, skipFilter, v)
    ensures v == Visible(env, db, active, skipFilter)
  {
  }

  lemma HitIsMeant(v: Db, op: DbOp)
    requires !op.Insert?
    ensures Hit(v, op.table, op.holds) == set k | k in v && Meant(v, op, k)
  {
  }

  // ---- SELECT ----

  /** A SELECT answers with exactly the rows it means, as they are, and changes nothing. */
  lemma SelectShows(env: Env, db: Db, active: Option<string>, op: DbOp, v: Db)
    requires op.Select? && Sees(env, db, active, op.skipFilter, v)
    ensures var (after, obs) := Apply(env, db, active, op);
      && after == db && obs.Rows?
      && forall k :: (k in obs.rows <==> Meant(v, op, k)) && (k in obs.rows ==> k in db && obs.rows[k] == db[k])
  {
    SeesVisible(env, db, active, op.skipFilter, v);
  }

  // ---- UPDATE ----

  /** The rows meant hold exactly the assigned values, under the new org if there is one; all others are as they
      were, and no row comes or goes. */
  ghost predicate Updated(db: Db, op: DbOp, v: Db, after: Db)
    requires op.Update?
  {
    after.Keys == db.Keys &&
    forall k :: k in db ==>
      if Meant(v, op, k)
      then after[k].fields == op.assign(v, k)
           && after[k].org == (if op.newOrg.Some? then op.newOrg.value else db[k].org)
      else after[k] == db[k]
  }

  lemma RewrittenIsMeant(env: Env, db: Db, active: Option<string>, op: DbOp, v: Db)
    requires op.Update? && Sees(env, db, active, op.skipFilter, v)
    ensures var before := Rewritten(env, db, active, op);
      forall k :: (k in before <==> k in v && Meant(v, op, k)) && (k in before ==> k in db && before[k] == db[k])
  {
    SeesVisible(env, db, active, op.skipFilter, v);
  }

  lemma WrittenIsMeant(env: Env, db: Db, active: Option<string>, op: DbOp, v: Db)
    requires op.Update? && Sees(env, db, active, op.skipFilter, v)
    ensures var written := Written(env, db, active, op);
      forall k :: (k in written <==> k in v && Meant(v, op, k)) &&
                  (k in written ==>
                     k in db && written[k].fields == op.assign(v, k)
                     && written[k].org == (if op.newOrg.Some? then op.newOrg.value else db[k].org))
  {
    RewrittenIsMeant(env, db, active, op, v);
    SeesVisible(env, db, active, op.skipFilter, v);
  }

  lemma AfterUpdated(env: Env, db: Db, active: Option<string>, op: DbOp, v: Db)
    requires op.Update? && Sees(env, db, active, op.skipFilter, v)
    ensures Updated(db, op, v, After(env, db, active, op))
  {
    WrittenIsMeant(env, db, active, op, v);
  }

  lemma UpdatedOnce(db: Db, op: DbOp, v: Db, after: Db, other: Db)
    requires op.Update? && Updated(db, op, v, after) && Updated(db, op, v, other)
    ensures after == other
  {
  }

  /** An UPDATE that raises nothing updates the rows it means, and counts them. */
  lemma UpdateWrites(env: Env, db: Db, active: Option<string>, op: DbOp, v: Db)
    requires op.Update? && Sees(env, db, active, op.skipFilter, v)
    requires Apply(env, db, active, op).1 != IntegrityError
    ensures var (after, obs) := Apply(env, db, active, op);
      Updated(db, op, v, after) && obs == Count(|set k | k in v && Meant(v, op, k)|)
  {
    AfterUpdated(env, db, active, op, v);
    SeesVisible(env, db, active, op.skipFilter, v);
    HitIsMeant(v, op);
  }

  // ---- INSERT ----

  /** An INSERT that raises nothing adds its one row, under the org it names, else the active one, else the default. */
  lemma InsertAdds(env: Env, db: Db, active: Option<string>, op: DbOp)
    requires op.Insert? && Apply(env, db, active, op).1 != IntegrityError
    ensures var (after, obs) := Apply(env, db, active, op);
      var org := if op.org.Some? then op.org.value else if active.Some? then active.value else "default";
      && obs == Inserted && op.key !in db && after.Keys == db.Keys + {op.key}
      && after[op.key] == Row(org, op.fields) && forall k :: k in db ==> after[k] == db[k]
  {
  }

  // ---- DELETE ----

  /** A DELETE raises nothing, counts the rows it means, and leaves exactly what their deletion leaves, column by
      column. */
  lemma DeleteRemoves(env: Env, db: Db, active: Option<string>, op: DbOp, v: Db, k: Key, c: string)
    requires op.Delete? && Sees(env, db, active, op.skipFilter, v)
    ensures var (after, obs) := Apply(env, db, active, op);
      var gone := set k | k in v && Meant(v, op, k);
      && obs == Count(|gone|)
      && (k in after <==> Stays(env.schema, db, gone, k))
      && (k in after ==>
            && after[k].org == db[k].org
            && (c in after[k].fields ==> c in db[k].fields && after[k].fields[c] == db[k].fields[c])
            && (c in db[k].fields && c !in after[k].fields <==>
                exists r :: NamesBy(env.schema, k, db[k], c, r, SetNull) && r in db
                            && !Stays(env.schema, db, gone, r)))
  {
    SeesVisible(env, db, active, op.skipFilter, v);
    HitIsMeant(v, op);
    NoneWritten(env, db, active, op);
    DeletedExact(env.schema, db, Removed(env, db, active, op), k, c);
  }

  lemma NoneWritten(env: Env, db: Db, active: Option<string>, op: DbOp)
    requires op.Select? || op.Delete?
    ensures !Violates(env, db, active, op)
  {
  }

  // ---- When it raises ----

  /** A statement that raises changes nothing; only one that writes rows does. */
  lemma RaisesUnchanged(env: Env, db: Db, active: Option<string>, op: DbOp)
    ensures Apply(env, db, active, op).1 == IntegrityError ==>
              Apply(env, db, active, op).0 == db && (op.Insert? || op.Update?)
  {
    if op.Select? || op.Delete? {
      NoneWritten(env, db, active, op);
    }
  }

  /** The row comes to hold values of a unique index that another row holds. */
  ghost predicate TakesFrom(schema: Schema, before: Option<Row>, k: Key, row: Row, other: Key, theirs: Row) {
    k != other && k.table == other.table && k.table in schema.uniques &&
    exists u :: u in schema.uniques[k.table] && Agree(u, row, theirs) && !(before.Some? && Agree(u, before.value, row))
  }

  /** The row comes to name a row that is not there. */
  ghost predicate NamesMissing(schema: Schema, before: Option<Row>, k: Key, row: Row, after: Db) {
    exists r :: Refers(schema, k, row, r) && r !in after && !(before.Some? && Refers(schema, k, before.value, r))
  }

  function Before(before: Db, k: Key): Option<Row> {
    if k in before then Some(before[k]) else None
  }

  /** The claim a row makes through an index that covers it. */
  function Value(u: Unique, table: string, row: Row): Claim
    requires Covers(u, row.fields)
  {
    UniqueValue(table, u, map c | c in u.columns :: row.fields[c], if u.perOrg then Some(row.org) else None)
  }

  lemma AgreeIsValue(u: Unique, table: string, a: Row, b: Row)
    ensures Agree(u, a, b) <==>
            Covers(u, a.fields) && Covers(u, b.fields) && Value(u, table, a) == Value(u, table, b)
  {
    if Agree(u, a, b) {
      assert u.columns <= a.fields.Keys && u.columns <= b.fields.Keys;
      assert (map c | c in u.columns :: a.fields[c]) == map c | c in u.columns :: b.fields[c];
    } else if Covers(u, a.fields) && Covers(u, b.fields) && Value(u, table, a) == Value(u, table, b) {
      forall c | c in u.columns ensures a.fields[c] == b.fields[c] {
        assert Value(u, table, a).values[c] == a.fields[c] && Value(u, table, b).values[c] == b.fields[c];
      }
    }
  }

  lemma ValueIsClaimed(schema: Schema, k: Key, row: Row, claim: Claim)
    ensures claim.UniqueValue? ==>
      (claim in Claims(schema, k, row) <==>
       k.table in schema.uniques && claim.index in schema.uniques[k.table] && Covers(claim.index, row.fields)
       && claim == Value(claim.index, k.table, row))
    ensures claim.PrimaryKey? ==> (claim in Claims(schema, k, row) <==> claim.key == k)
  {
  }

  lemma ClaimTaken(schema: Schema, before: Option<Row>, k: Key, row: Row, other: Key, theirs: Row, claim: Claim)
    requires k != other && claim in Claims(schema, k, row) && claim in Claims(schema, other, theirs)
    requires before.Some? ==> claim !in Claims(schema, k, before.value)
    ensures TakesFrom(schema, before, k, row, other, theirs)
  {
    ValueIsClaimed(schema, k, row, claim);
    ValueIsClaimed(schema, other, theirs, claim);
    AgreeIsValue(claim.index, k.table, row, theirs);
    if before.Some? {
      ValueIsClaimed(schema, k, before.value, claim);
      AgreeIsValue(claim.index, k.table, before.value, row);
    }
  }

  lemma TakenClaim(schema: Schema, before: Option<Row>, k: Key, row: Row, other: Key, theirs: Row)
    returns (claim: Claim)
    requires TakesFrom(schema, before, k, row, other, theirs)
    ensures claim in Claims(schema, k, row) && claim in Claims(schema, other, theirs)
    ensures before.Some? ==> claim !in Claims(schema, k, before.value)
  {
    var u :| u in schema.uniques[k.table] && Agree(u, row, theirs) && !(before.Some? && Agree(u, before.value, row));
    AgreeIsValue(u, k.table, row, theirs);
    claim := Value(u, k.table, row);
    ValueIsClaimed(schema, k, row, claim);
    ValueIsClaimed(schema, other, theirs, claim);
    if before.Some? {
      ValueIsClaimed(schema, k, before.value, claim);
      AgreeIsValue(u, k.table, before.value, row);
    }
  }

  /** The claims collide exactly when some row written takes its values from another row. */
  lemma CollidesExact(schema: Schema, before: Db, written: Db, after: Db)
    ensures Collides(schema, NewClaims(schema, before, written), after) <==>
            exists k, other :: k in written && other in after
                               && TakesFrom(schema, Before(before, k), k, written[k], other, after[other])
  {
    var asked := NewClaims(schema, before, written);
    if k, other :| k in asked && other in after && Clash(schema, asked, after, k, other) {
      var claim :| claim in asked[k] && claim in Claims(schema, other, after[other]);
      ClaimTaken(schema, Before(before, k), k, written[k], other, after[other], claim);
    }
    if k, other :| k in written && other in after
                   && TakesFrom(schema, Before(before, k), k, written[k], other, after[other]) {
      var claim := TakenClaim(schema, Before(before, k), k, written[k], other, after[other]);
      assert claim in asked[k];
      assert Clash(schema, asked, after, k, other);
    }
  }

  lemma MissingExact(schema: Schema, before: Db, written: Db, after: Db)
    ensures KeysOf(NewReferences(schema, before, written) - after.Keys) != {} <==>
            exists k :: k in written && NamesMissing(schema, Before(before, k), k, written[k], after)
  {
    var named := NewReferences(schema, before, written);
    if KeysOf(named - after.Keys) != {} {
      var c :| c in KeysOf(named - after.Keys);
      var k :| k in written && c.key in References(schema, k, written[k])
               && !(k in before && c.key in References(schema, k, before[k]));
      ReferencesExact(schema, k, written[k], c.key);
      if k in before {
        ReferencesExact(schema, k, before[k], c.key);
      }
      assert NamesMissing(schema, Before(before, k), k, written[k], after);
    }
    if k :| k in written && NamesMissing(schema, Before(before, k), k, written[k], after) {
      var r :| Refers(schema, k, written[k], r) && r !in after && !(k in before && Refers(schema, k, before[k], r));
      ReferencesExact(schema, k, written[k], r);
      if k in before {
        ReferencesExact(schema, k, before[k], r);
      }
      assert PrimaryKey(r) in KeysOf(named - after.Keys);
    }
  }

  /** An INSERT raises exactly when its key is there, its row has values of a unique index that some row holds, or it
      names a row that is missing. */
  lemma InsertRaisesExactly(env: Env, db: Db, active: Option<string>, op: DbOp)
    requires op.Insert?
    ensures var row := Row(if op.org.Some? then op.org.value else if active.Some? then active.value else "default",
                           op.fields);
      Apply(env, db, active, op).1 == IntegrityError <==>
      op.key in db
      || (exists other :: other in db && TakesFrom(env.schema, None, op.key, row, other, db[other]))
      || NamesMissing(env.schema, None, op.key, row, db[op.key := row])
  {
    var written := Written(env, db, active, op);
    CollidesExact(env.schema, map[], written, After(env, db, active, op));
    MissingExact(env.schema, map[], written, After(env, db, active, op));
    assert After(env, db, active, op) == db[op.key := written[op.key]];
    var after := After(env, db, active, op);
    assert forall other :: other != op.key ==>
      (other in after <==> other in db) && (other in db ==> after[other] == db[other]);
  }

  lemma ViolatesByParts(env: Env, db: Db, active: Option<string>, op: DbOp)
    requires op.Update?
    ensures var before, written, after := Rewritten(env, db, active, op), Written(env, db, active, op),
                                          After(env, db, active, op);
      Apply(env, db, active, op).1 == IntegrityError <==>
      Collides(env.schema, NewClaims(env.schema, before, written), after)
      || KeysOf(NewReferences(env.schema, before, written) - after.Keys) != {}
  {
  }

  /** An UPDATE raises exactly when, with `after` the table it asks for, some row it means comes to hold values of a
      unique index that another row of `after` holds, or comes to name a row that is missing. */
  lemma UpdateRaisesExactly(env: Env, db: Db, active: Option<string>, op: DbOp, v: Db, after: Db)
    requires op.Update? && Sees(env, db, active, op.skipFilter, v) && Updated(db, op, v, after)
    ensures Apply(env, db, active, op).1 == IntegrityError <==>
            (exists k, other :: k in v && Meant(v, op, k) && other in after
                                && TakesFrom(env.schema, Some(db[k]), k, after[k], other, after[other]))
            || (exists k :: k in v && Meant(v, op, k) && NamesMissing(env.schema, Some(db[k]), k, after[k], after))
  {
    var before, written := Rewritten(env, db, active, op), Written(env, db, active, op);
    AfterUpdated(env, db, active, op, v);
    UpdatedOnce(db, op, v, after, After(env, db, active, op));
    RewrittenIsMeant(env, db, active, op, v);
    WrittenIsMeant(env, db, active, op, v);
    ViolatesByParts(env, db, active, op);
    CollidesExact(env.schema, before, written, after);
    MissingExact(env.schema, before, written, after);
  }
}
