/** The database under the hooks: rows, the unique indexes and foreign keys the tables declare, and what deleting rows
    does to the rows that refer to them. */
module Relational {
  import opened Prelude

  type Fields = map<string, string>

  datatype Key = Key(table: string, id: string)

  /** `org` is the `org_id` column; a table that has none does not use it. */
  datatype Row = Row(org: string, fields: Fields)

  type Db = map<Key, Row>

  /** A unique index or constraint beside the primary key: over these columns, and over `org_id` too if `perOrg`; a
      partial index covers only the rows that hold the values of `where`. */
  datatype Unique = Unique(columns: set<string>, perOrg: bool, where: Fields)

  datatype OnDelete = Cascade | SetNull

  /** A foreign key: a column naming the id of a row of `target`, and what happens when that row is deleted. */
  datatype Reference = Reference(target: string, onDelete: OnDelete)

  /** What the tables declare: their unique indexes, and their foreign keys by column. */
  datatype Schema = Schema(uniques: map<string, set<Unique>>, references: map<string, map<string, Reference>>)

  // ---- Unique values ----

  /** What at most one row of the database may hold: a primary key, or the values of a unique index. */
  datatype Claim =
    | PrimaryKey(key: Key)
    | UniqueValue(table: string, index: Unique, values: Fields, org: Option<string>)

  /** A column without a value is NULL, and an index over it then claims nothing. */
  predicate Covers(u: Unique, fields: Fields) {
    u.columns <= fields.Keys && forall c :: c in u.where ==> c in fields && fields[c] == u.where[c]
  }

  function Claims(schema: Schema, k: Key, row: Row): set<Claim> {
    var declared := if k.table in schema.uniques then schema.uniques[k.table] else {};
    {PrimaryKey(k)} + set u | u in declared && Covers(u, row.fields) ::
      UniqueValue(k.table, u, map c | c in u.columns :: row.fields[c], if u.perOrg then Some(row.org) else None)
  }

  function AllClaims(schema: Schema, rows: Db): set<Claim> {
    set k, c | k in rows && c in Claims(schema, k, rows[k]) :: c
  }

  /** The claims of each row written, beyond those it already had. */
  function NewClaims(schema: Schema, before: Db, written: Db): map<Key, set<Claim>> {
    map k | k in written ::
      Claims(schema, k, written[k]) - if k in before then Claims(schema, k, before[k]) else {}
  }

  function ClaimsOf(asked: map<Key, set<Claim>>): set<Claim> {
    set k, c | k in asked && c in asked[k] :: c
  }

  function KeysOf(rows: set<Key>): set<Claim> {
    set k | k in rows :: PrimaryKey(k)
  }

  /** The row `other` of the table holds a claim asked for by row `k`. */
  predicate Clash(schema: Schema, asked: map<Key, set<Claim>>, after: Db, k: Key, other: Key) {
    k in asked && other in after && k != other && !(asked[k] !! Claims(schema, other, after[other]))
  }

  predicate Collides(schema: Schema, asked: map<Key, set<Claim>>, after: Db) {
    exists k, other :: k in asked && other in after && Clash(schema, asked, after, k, other)
  }

  /** Two rows hold the same values of a unique index that covers both. */
  predicate SameValues(schema: Schema, table: string, a: Row, b: Row) {
    table in schema.uniques &&
    exists u :: u in schema.uniques[table] && Agree(u, a, b)
  }

  predicate Agree(u: Unique, a: Row, b: Row) {
    && (forall c :: c in u.columns ==> c in a.fields && c in b.fields && a.fields[c] == b.fields[c])
    && (forall c :: c in u.where ==> c in a.fields && c in b.fields
                                     && a.fields[c] == u.where[c] && b.fields[c] == u.where[c])
    && (u.perOrg ==> a.org == b.org)
  }

  lemma SharedClaim(schema: Schema, k: Key, a: Row, other: Key, b: Row, claim: Claim)
    requires k != other && claim in Claims(schema, k, a) && claim in Claims(schema, other, b)
    ensures k.table == other.table && SameValues(schema, k.table, a, b)
  {
    var u := claim.index;
    forall c | c in u.columns ensures a.fields[c] == b.fields[c] {
      assert claim.values[c] == a.fields[c] && claim.values[c] == b.fields[c];
    }
    assert Agree(u, a, b);
  }

  lemma AgreeingClaims(schema: Schema, k: Key, a: Row, other: Key, b: Row)
    requires k.table == other.table && SameValues(schema, k.table, a, b)
    ensures !(Claims(schema, k, a) !! Claims(schema, other, b))
  {
    var u :| u in schema.uniques[k.table] && Agree(u, a, b);
    var va, vb := (map c | c in u.columns :: a.fields[c]), (map c | c in u.columns :: b.fields[c]);
    assert Covers(u, a.fields) && Covers(u, b.fields) && va == vb;
    var claim := UniqueValue(k.table, u, va, if u.perOrg then Some(a.org) else None);
    assert claim in Claims(schema, k, a);
    assert claim in Claims(schema, other, b);
  }

  /** What claims stand for: two different rows of a database exclude each other exactly when they are rows of one table
      and hold the same values of one of its unique indexes. */
  lemma ClaimsExact(schema: Schema, k: Key, a: Row, other: Key, b: Row)
    requires k != other
    ensures Claims(schema, k, a) !! Claims(schema, other, b) <==>
            !(k.table == other.table && SameValues(schema, k.table, a, b))
  {
    if claim :| claim in Claims(schema, k, a) && claim in Claims(schema, other, b) {
      SharedClaim(schema, k, a, other, b, claim);
    }
    if k.table == other.table && SameValues(schema, k.table, a, b) {
      AgreeingClaims(schema, k, a, other, b);
    }
  }

  // ---- Foreign keys ----

  /** Column `c` of the row names the row `r`, and says what happens when `r` is deleted. */
  predicate NamesBy(schema: Schema, k: Key, row: Row, c: string, r: Key, onDelete: OnDelete) {
    && k.table in schema.references && c in schema.references[k.table] && c in row.fields
    && r == Key(schema.references[k.table][c].target, row.fields[c])
    && schema.references[k.table][c].onDelete == onDelete
  }

  function ForeignKeys(schema: Schema, table: string): map<string, Reference> {
    if table in schema.references then schema.references[table] else map[]
  }

  /** The rows a row's foreign keys name. */
  function References(schema: Schema, k: Key, row: Row): set<Key> {
    var columns := ForeignKeys(schema, k.table);
    set c | c in columns && c in row.fields :: Key(columns[c].target, row.fields[c])
  }

  /** Those whose deletion deletes this row too. */
  function Parents(schema: Schema, k: Key, row: Row): set<Key> {
    var columns := ForeignKeys(schema, k.table);
    set c | c in columns && c in row.fields && columns[c].onDelete.Cascade? :: Key(columns[c].target, row.fields[c])
  }

  /** The rows that rows written refer to, and did not refer to before. */
  function NewReferences(schema: Schema, before: Db, written: Db): set<Key> {
    set k, r | k in written && r in References(schema, k, written[k])
               && !(k in before && r in References(schema, k, before[k])) :: r
  }

  function Children(schema: Schema, db: Db, gone: set<Key>): set<Key> {
    set k | k in db && !(Parents(schema, k, db[k]) !! gone)
  }

  /** The rows that go with `gone`, by cascading deletes. */
  function Doomed(schema: Schema, db: Db, gone: set<Key>): set<Key>
    requires gone <= db.Keys
    decreases db.Keys - gone
  {
    var next := gone + Children(schema, db, gone);
    if next == gone then gone else Doomed(schema, db, next)
  }

  /** A row that stays, with every SET NULL column that named a deleted row emptied. */
  function Nulled(schema: Schema, k: Key, row: Row, gone: set<Key>): Row {
    var columns := ForeignKeys(schema, k.table);
    row.(fields := map c | c in row.fields
                           && !(c in columns && columns[c].onDelete.SetNull?
                                && Key(columns[c].target, row.fields[c]) in gone) :: row.fields[c])
  }

  function Without(schema: Schema, db: Db, gone: set<Key>): Db {
    map k | k in db && k !in gone :: Nulled(schema, k, db[k], gone)
  }

  /** The database once the rows are deleted. */
  function Deleted(schema: Schema, db: Db, gone: set<Key>): Db
    requires gone <= db.Keys
  {
    Without(schema, db, Doomed(schema, db, gone))
  }

  ghost predicate Refers(schema: Schema, k: Key, row: Row, r: Key) {
    exists c :: NamesBy(schema, k, row, c, r, Cascade) || NamesBy(schema, k, row, c, r, SetNull)
  }

  /** The declared columns, and what they name. */
  lemma ReferencesExact(schema: Schema, k: Key, row: Row, r: Key)
    ensures r in Parents(schema, k, row) <==> exists c :: NamesBy(schema, k, row, c, r, Cascade)
    ensures r in References(schema, k, row) <==> Refers(schema, k, row, r)
  {
    var columns := ForeignKeys(schema, k.table);
    if r in References(schema, k, row) {
      var c :| c in columns && c in row.fields && r == Key(columns[c].target, row.fields[c]);
      assert NamesBy(schema, k, row, c, r, Cascade) || NamesBy(schema, k, row, c, r, SetNull);
    }
    if r in Parents(schema, k, row) {
      var c :| c in columns && c in row.fields && columns[c].onDelete.Cascade?
               && r == Key(columns[c].target, row.fields[c]);
      assert NamesBy(schema, k, row, c, r, Cascade);
    }
    if c :| NamesBy(schema, k, row, c, r, Cascade) || NamesBy(schema, k, row, c, r, SetNull) {
      assert c in columns;
    }
  }

  // ---- Exactly which rows a delete reaches ----

  /** Each row of the path is deleted along with the next one, and the last is deleted itself. */
  predicate CascadePath(schema: Schema, db: Db, path: seq<Key>, gone: set<Key>) {
    && path != [] && path[|path| - 1] in gone && (forall i :: 0 <= i < |path| ==> path[i] in db)
    && forall i, j :: 0 <= i < j == i + 1 < |path| ==> path[j] in Parents(schema, path[i], db[path[i]])
  }

  lemma {:induction false} DoomedCloses(schema: Schema, db: Db, gone: set<Key>)
    requires gone <= db.Keys
    ensures var doomed := Doomed(schema, db, gone);
      gone <= doomed <= db.Keys && Children(schema, db, doomed) <= doomed
    decreases db.Keys - gone
  {
    var next := gone + Children(schema, db, gone);
    if next != gone {
      DoomedCloses(schema, db, next);
    }
  }

  /** A path to the next round of the closure leads on to the first. */
  lemma PathExtends(schema: Schema, db: Db, path: seq<Key>, gone: set<Key>) returns (longer: seq<Key>)
    requires CascadePath(schema, db, path, gone + Children(schema, db, gone)) && gone <= db.Keys
    ensures CascadePath(schema, db, longer, gone) && longer[0] == path[0]
  {
    var last := path[|path| - 1];
    if last in gone {
      longer := path;
    } else {
      var r :| r in Parents(schema, last, db[last]) && r in gone;
      longer := path + [r];
    }
  }

  lemma {:induction false} DoomedHasPath(schema: Schema, db: Db, gone: set<Key>, k: Key) returns (path: seq<Key>)
    requires gone <= db.Keys && k in Doomed(schema, db, gone)
    ensures CascadePath(schema, db, path, gone) && path[0] == k
    decreases db.Keys - gone
  {
    var next := gone + Children(schema, db, gone);
    if next == gone {
      path := [k];
    } else {
      path := DoomedHasPath(schema, db, next, k);
      path := PathExtends(schema, db, path, gone);
    }
  }

  lemma {:induction false} PathIsDoomed(schema: Schema, db: Db, path: seq<Key>, gone: set<Key>)
    requires gone <= db.Keys && CascadePath(schema, db, path, gone)
    ensures path[0] in Doomed(schema, db, gone)
    decreases |path|
  {
    DoomedCloses(schema, db, gone);
    if |path| > 1 {
      PathIsDoomed(schema, db, path[1..], gone);
      assert path[1] in Parents(schema, path[0], db[path[0]]);
      assert path[0] in Children(schema, db, Doomed(schema, db, gone));
    }
  }

  /** A row goes exactly when a path of cascading references leads from it to a row deleted. */
  lemma DoomedExactly(schema: Schema, db: Db, gone: set<Key>, k: Key)
    requires gone <= db.Keys
    ensures k in Doomed(schema, db, gone) <==> exists path :: CascadePath(schema, db, path, gone) && path[0] == k
  {
    if k in Doomed(schema, db, gone) {
      var path := DoomedHasPath(schema, db, gone, k);
    }
    if path :| CascadePath(schema, db, path, gone) && path[0] == k {
      PathIsDoomed(schema, db, path, gone);
    }
  }

  /** The row refers to a row that goes. */
  predicate Reached(schema: Schema, k: Key, row: Row, doomed: set<Key>) {
    !(References(schema, k, row) !! doomed)
  }

  lemma NulledExactly(schema: Schema, k: Key, row: Row, doomed: set<Key>)
    ensures !Reached(schema, k, row, doomed) ==> Nulled(schema, k, row, doomed) == row
    ensures Reached(schema, k, row, doomed) && Parents(schema, k, row) !! doomed ==>
              Nulled(schema, k, row, doomed) != row
  {
    var columns := ForeignKeys(schema, k.table);
    if Reached(schema, k, row, doomed) && Parents(schema, k, row) !! doomed {
      var c :| c in columns && c in row.fields && Key(columns[c].target, row.fields[c]) in doomed;
      assert columns[c].onDelete.SetNull?;
      assert c !in Nulled(schema, k, row, doomed).fields;
    } else if !Reached(schema, k, row, doomed) {
      assert Nulled(schema, k, row, doomed).fields == row.fields;
    }
  }

  /** The row refers to the first row of such a path. */
  predicate Leads(schema: Schema, db: Db, k: Key, path: seq<Key>, gone: set<Key>) {
    k in db && CascadePath(schema, db, path, gone) && path[0] in References(schema, k, db[k])
  }

  /** A row that is not deleted itself is gone or changed afterwards exactly when it refers to a row that goes. */
  lemma ChangedExactly(schema: Schema, db: Db, gone: set<Key>, k: Key)
    requires gone <= db.Keys && k in db && k !in gone
    ensures var after := Deleted(schema, db, gone);
      (k !in after || after[k] != db[k]) <==> Reached(schema, k, db[k], Doomed(schema, db, gone))
  {
    var doomed := Doomed(schema, db, gone);
    DoomedCloses(schema, db, gone);
    NulledExactly(schema, k, db[k], doomed);
    assert k in Children(schema, db, doomed) <==> !(Parents(schema, k, db[k]) !! doomed);
    if k in doomed {
      var path := DoomedHasPath(schema, db, gone, k);
      assert path[1] in Parents(schema, k, db[k]);
      PathIsDoomed(schema, db, path[1..], gone);
      assert path[1] in References(schema, k, db[k]);
    }
  }

  /** So a delete changes another row exactly when some chain of references leads from it to a row deleted: any
      reference first, then cascading ones. */
  lemma ChangedByChain(schema: Schema, db: Db, gone: set<Key>, k: Key)
    requires gone <= db.Keys && k in db && k !in gone
    ensures var after := Deleted(schema, db, gone);
      (k !in after || after[k] != db[k]) <==> exists path :: Leads(schema, db, k, path, gone)
  {
    ChangedExactly(schema, db, gone, k);
    var doomed := Doomed(schema, db, gone);
    if Reached(schema, k, db[k], doomed) {
      var r :| r in References(schema, k, db[k]) && r in doomed;
      var path := DoomedHasPath(schema, db, gone, r);
      assert Leads(schema, db, k, path, gone);
    }
    if path :| Leads(schema, db, k, path, gone) {
      PathIsDoomed(schema, db, path, gone);
    }
  }

  ghost predicate CascadesWith(schema: Schema, k: Key, row: Row, r: Key) {
    exists c :: NamesBy(schema, k, row, c, r, Cascade)
  }

  /** Each row goes with the next one by some cascading column, and the last is deleted itself. */
  ghost predicate CascadeChain(schema: Schema, db: Db, path: seq<Key>, gone: set<Key>) {
    && path != [] && path[|path| - 1] in gone && (forall i :: 0 <= i < |path| ==> path[i] in db)
    && forall i, j :: 0 <= i < j == i + 1 < |path| ==>
         CascadesWith(schema, path[i], db[path[i]], path[j])
  }

  lemma ChainIsPath(schema: Schema, db: Db, path: seq<Key>, gone: set<Key>)
    ensures CascadeChain(schema, db, path, gone) <==> CascadePath(schema, db, path, gone)
  {
    if path != [] && forall i :: 0 <= i < |path| ==> path[i] in db {
      forall i, j | 0 <= i < j == i + 1 < |path|
        ensures path[j] in Parents(schema, path[i], db[path[i]]) <==>
                CascadesWith(schema, path[i], db[path[i]], path[j])
      {
        ReferencesExact(schema, path[i], db[path[i]], path[j]);
      }
    }
  }

  /** The row is not deleted, nor does it go with one that is. */
  ghost predicate Stays(schema: Schema, db: Db, gone: set<Key>, k: Key) {
    k in db && forall path :: CascadeChain(schema, db, path, gone) ==> path[0] != k
  }

  lemma StaysExact(schema: Schema, db: Db, gone: set<Key>, k: Key)
    requires gone <= db.Keys && k in db
    ensures Stays(schema, db, gone, k) <==> k !in Doomed(schema, db, gone)
  {
    DoomedExactly(schema, db, gone, k);
    forall path ensures CascadeChain(schema, db, path, gone) <==> CascadePath(schema, db, path, gone) {
      ChainIsPath(schema, db, path, gone);
    }
  }

  /** What a delete leaves, column by column: exactly the rows no chain of cascades takes along, in their org, with
      every value but those of SET NULL columns that named a row now gone. */
  lemma DeletedExact(schema: Schema, db: Db, gone: set<Key>, k: Key, c: string)
    requires gone <= db.Keys
    ensures var after := Deleted(schema, db, gone);
      && (k in after <==> Stays(schema, db, gone, k))
      && (k in after ==>
            && after[k].org == db[k].org
            && (c in after[k].fields ==> c in db[k].fields && after[k].fields[c] == db[k].fields[c])
            && (c in db[k].fields && c !in after[k].fields <==>
                exists r :: NamesBy(schema, k, db[k], c, r, SetNull) && r in db && !Stays(schema, db, gone, r)))
  {
    var after, doomed := Deleted(schema, db, gone), Doomed(schema, db, gone);
    DoomedCloses(schema, db, gone);
    if k in db {
      StaysExact(schema, db, gone, k);
      var columns := ForeignKeys(schema, k.table);
      if k in after && c in db[k].fields && c !in after[k].fields {
        var r := Key(columns[c].target, db[k].fields[c]);
        StaysExact(schema, db, gone, r);
        assert NamesBy(schema, k, db[k], c, r, SetNull);
      }
      if k in after {
        if r :| NamesBy(schema, k, db[k], c, r, SetNull) && r in db && !Stays(schema, db, gone, r) {
          StaysExact(schema, db, gone, r);
        }
      }
    }
  }

  lemma DeletedKeepsOrgs(schema: Schema, db: Db, gone: set<Key>)
    requires gone <= db.Keys
    ensures var after := Deleted(schema, db, gone);
      forall k :: k in after ==> k in db && after[k].org == db[k].org
  {
  }

  /** A delete leaves no reference to a row it deleted. */
  lemma DeletedRefersOn(schema: Schema, db: Db, gone: set<Key>, k: Key, r: Key)
    requires gone <= db.Keys && k in Deleted(schema, db, gone)
    requires r in References(schema, k, Deleted(schema, db, gone)[k])
    ensures r in References(schema, k, db[k]) && (r in db ==> r in Deleted(schema, db, gone))
  {
    var doomed := Doomed(schema, db, gone);
    DoomedCloses(schema, db, gone);
    assert k in Children(schema, db, doomed) <==> !(Parents(schema, k, db[k]) !! doomed);
  }

  // ---- A database in two parts ----

  ghost predicate Parts(inside: Db, outside: Db, whole: Db) {
    && inside.Keys !! outside.Keys && whole.Keys == inside.Keys + outside.Keys
    && (forall k :: k in inside ==> k in whole && whole[k] == inside[k])
    && (forall k :: k in outside ==> k in whole && whole[k] == outside[k])
  }

  lemma ClashInPart(schema: Schema, asked: map<Key, set<Claim>>, inside: Db, outside: Db, after: Db)
    requires Parts(inside, outside, after) && asked.Keys !! outside.Keys
    ensures Collides(schema, asked, inside) ==> Collides(schema, asked, after)
    ensures !(ClaimsOf(asked) !! AllClaims(schema, outside)) ==> Collides(schema, asked, after)
  {
    if k, other :| k in asked && other in inside && Clash(schema, asked, inside, k, other) {
      assert Clash(schema, asked, after, k, other);
    }
    if c :| c in ClaimsOf(asked) && c in AllClaims(schema, outside) {
      var k :| k in asked && c in asked[k];
      var other :| other in outside && c in Claims(schema, other, outside[other]);
      assert Clash(schema, asked, after, k, other);
    }
  }

  lemma ClashSplits(schema: Schema, asked: map<Key, set<Claim>>, inside: Db, outside: Db, after: Db)
    requires Parts(inside, outside, after) && asked.Keys !! outside.Keys
    ensures Collides(schema, asked, after) <==>
            Collides(schema, asked, inside) || !(ClaimsOf(asked) !! AllClaims(schema, outside))
  {
    ClashInPart(schema, asked, inside, outside, after);
    if k, other :| k in asked && other in after && Clash(schema, asked, after, k, other) {
      if other in inside {
        assert Clash(schema, asked, inside, k, other);
      } else {
        var c :| c in asked[k] && c in Claims(schema, other, after[other]);
        assert c in ClaimsOf(asked) && c in AllClaims(schema, outside);
      }
    }
  }

  lemma KeyAmongClaims(schema: Schema, rows: Db, k: Key)
    ensures PrimaryKey(k) in AllClaims(schema, rows) <==> k in rows
  {
    if k in rows {
      assert PrimaryKey(k) in Claims(schema, k, rows[k]);
    }
  }

  lemma KeysSplit(schema: Schema, named: set<Key>, inside: Db, outside: Db, after: Db)
    requires Parts(inside, outside, after)
    ensures KeysOf(named - after.Keys) == {} <==> KeysOf(named - inside.Keys) <= AllClaims(schema, outside)
  {
    if KeysOf(named - after.Keys) == {} {
      forall c | c in KeysOf(named - inside.Keys) ensures c in AllClaims(schema, outside) {
        assert c in KeysOf(named - after.Keys) || c.key in outside;
        KeyAmongClaims(schema, outside, c.key);
      }
    }
    if KeysOf(named - inside.Keys) <= AllClaims(schema, outside) {
      forall k | k in named - after.Keys ensures false {
        assert PrimaryKey(k) in KeysOf(named - inside.Keys);
        KeyAmongClaims(schema, outside, k);
      }
    }
  }

  /** No row outside refers to a row that a delete inside may reach: its foreign keys name rows outside, or rows of
      tables in `roots`, which have no foreign keys of their own. */
  ghost predicate Apart(schema: Schema, outside: Db, roots: string -> bool) {
    forall k, r :: k in outside && r in References(schema, k, outside[k]) ==> r in outside || roots(r.table)
  }

  ghost predicate OffRoots(keys: set<Key>, roots: string -> bool) {
    forall k :: k in keys ==> !roots(k.table)
  }

  lemma ChildrenInPart(schema: Schema, inside: Db, outside: Db, whole: Db, gone: set<Key>, roots: string -> bool)
    requires Parts(inside, outside, whole) && Apart(schema, outside, roots)
    requires forall t :: roots(t) ==> ForeignKeys(schema, t) == map[]
    requires gone <= inside.Keys && OffRoots(gone, roots)
    ensures Children(schema, whole, gone) == Children(schema, inside, gone)
    ensures OffRoots(Children(schema, inside, gone), roots)
  {
    forall k | k in outside ensures References(schema, k, outside[k]) !! gone {
    }
    assert forall k, row :: Parents(schema, k, row) <= References(schema, k, row);
  }

  lemma {:induction false} DoomedInPart(schema: Schema, inside: Db, outside: Db, whole: Db, gone: set<Key>,
                                        roots: string -> bool)
    requires Parts(inside, outside, whole) && Apart(schema, outside, roots)
    requires forall t :: roots(t) ==> ForeignKeys(schema, t) == map[]
    requires gone <= inside.Keys && OffRoots(gone, roots)
    ensures Doomed(schema, whole, gone) == Doomed(schema, inside, gone)
    ensures Doomed(schema, inside, gone) <= inside.Keys && OffRoots(Doomed(schema, inside, gone), roots)
    decreases inside.Keys - gone
  {
    var next := gone + Children(schema, inside, gone);
    ChildrenInPart(schema, inside, outside, whole, gone, roots);
    if next != gone {
      DoomedInPart(schema, inside, outside, whole, next, roots);
    }
  }

  /** A delete inside stays inside. */
  lemma DeletedInPart(schema: Schema, inside: Db, outside: Db, whole: Db, gone: set<Key>, roots: string -> bool)
    requires Parts(inside, outside, whole) && Apart(schema, outside, roots)
    requires forall t :: roots(t) ==> ForeignKeys(schema, t) == map[]
    requires gone <= inside.Keys && OffRoots(gone, roots)
    ensures Parts(Deleted(schema, inside, gone), outside, Deleted(schema, whole, gone))
  {
    var doomed := Doomed(schema, inside, gone);
    DoomedInPart(schema, inside, outside, whole, gone, roots);
    forall k | k in outside ensures Nulled(schema, k, outside[k], doomed) == outside[k] {
      NulledExactly(schema, k, outside[k], doomed);
    }
  }
}
