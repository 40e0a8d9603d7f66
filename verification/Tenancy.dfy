/** Tenant isolation: the context variable, the scopes that set it, and the ORM hooks of apps/api/app/tenancy.py,
    with the request scope of apps/api/app/main.py. */
module Tenancy {
  import opened Prelude
  import opened Relational

  const DEFAULT_ORG_ID := "default"
  const SYSTEM_CONTEXT := "__system__"

  /** `active_org_id()`: None means "no scoping". */
  function ActiveOrg(multiTenancy: bool, context: Option<string>): Option<string> {
    if !multiTenancy || context == Some(SYSTEM_CONTEXT) then None
    else if context.None? || context.value == "" then Some(DEFAULT_ORG_ID)
    else context
  }

  // ---- The statements the hooks see ----

  /** `scoped` is the list of tables the hook filters. */
  datatype Env = Env(multiTenancy: bool, scoped: set<string>, schema: Schema)

  /** Conditions, and the values an UPDATE assigns, may look at every row that joins and subqueries can see.
      `skipFilter` is the `skip_org_filter` execution option. */
  datatype DbOp =
    | Select(table: string, holds: (Db, Key) -> bool, skipFilter: bool)
    | Update(table: string, holds: (Db, Key) -> bool, assign: (Db, Key) -> Fields, newOrg: Option<string>,
             skipFilter: bool)
    | Delete(table: string, holds: (Db, Key) -> bool, skipFilter: bool)
    | Insert(key: Key, org: Option<string>, fields: Fields)

  /** What the program learns: the selected rows, a row count, or that a constraint was violated. */
  datatype Obs = Rows(rows: Db) | Count(n: nat) | Inserted | IntegrityError

  /** The filter the hook adds for each table on its list: `org_id = :active`, unless there is no active org or the
      statement opts out. */
  predicate Admits(env: Env, active: Option<string>, skipFilter: bool, k: Key, row: Row) {
    active.None? || skipFilter || k.table !in env.scoped || row.org == active.value
  }

  function Visible(env: Env, db: Db, active: Option<string>, skipFilter: bool): Db {
    map k | k in db && Admits(env, active, skipFilter, k, db[k]) :: db[k]
  }

  function Hit(visible: Db, table: string, holds: (Db, Key) -> bool): set<Key> {
    set k | k in visible && k.table == table && holds(visible, k)
  }

  /** `stamp` before a flush: an unset org becomes the active one, or the default org when nothing is active. */
  function StampOrg(org: Option<string>, active: Option<string>): string {
    if org.Some? then org.value else if active.Some? then active.value else DEFAULT_ORG_ID
  }

  /** The rows an UPDATE rewrites, as they are. */
  function Rewritten(env: Env, db: Db, active: Option<string>, op: DbOp): Db {
    match op
    case Update(table, holds, _, _, skip) =>
      var visible := Visible(env, db, active, skip);
      map k | k in visible && k in Hit(visible, table, holds) :: visible[k]
    case _ => map[]
  }

  /** The rows the statement writes. */
  function Written(env: Env, db: Db, active: Option<string>, op: DbOp): Db {
    match op
    case Update(_, _, assign, newOrg, skip) =>
      var visible, rows := Visible(env, db, active, skip), Rewritten(env, db, active, op);
      map k | k in rows :: Row(newOrg.GetOr(rows[k].org), assign(visible, k))
    case Insert(key, org, fields) => map[key := Row(StampOrg(org, active), fields)]
    case _ => map[]
  }

  /** The rows a DELETE asks to remove; others may go with them. */
  function Removed(env: Env, db: Db, active: Option<string>, op: DbOp): (keys: set<Key>)
    ensures keys <= db.Keys
  {
    match op
    case Delete(table, holds, skip) => Hit(Visible(env, db, active, skip), table, holds)
    case _ => {}
  }

  /** The database the statement asks for. */
  function After(env: Env, db: Db, active: Option<string>, op: DbOp): Db {
    if op.Delete? then Deleted(env.schema, db, Removed(env, db, active, op))
    else db + Written(env, db, active, op)
  }

  function Asked(env: Env, db: Db, active: Option<string>, op: DbOp): map<Key, set<Claim>> {
    NewClaims(env.schema, Rewritten(env, db, active, op), Written(env, db, active, op))
  }

  function Named(env: Env, db: Db, active: Option<string>, op: DbOp): set<Key> {
    NewReferences(env.schema, Rewritten(env, db, active, op), Written(env, db, active, op))
  }

  /** Every value the database looks up for the statement: the unique values it asks for, and the keys it refers
      to. */
  function Touched(env: Env, db: Db, active: Option<string>, op: DbOp): set<Claim> {
    ClaimsOf(Asked(env, db, active, op)) + KeysOf(Named(env, db, active, op))
  }

  predicate Taken(env: Env, db: Db, active: Option<string>, op: DbOp) {
    (op.Insert? && op.key in db) || Collides(env.schema, Asked(env, db, active, op), After(env, db, active, op))
  }

  /** The keys it refers to that are not there. */
  function Dangling(env: Env, db: Db, active: Option<string>, op: DbOp): set<Claim> {
    KeysOf(Named(env, db, active, op) - After(env, db, active, op).Keys)
  }

  /** A unique value is taken, or a foreign key finds no row. */
  predicate Violates(env: Env, db: Db, active: Option<string>, op: DbOp) {
    Taken(env, db, active, op) || Dangling(env, db, active, op) != {}
  }

  function Answer(env: Env, db: Db, active: Option<string>, op: DbOp): Obs {
    match op
    case Select(table, holds, skip) =>
      var visible := Visible(env, db, active, skip);
      Rows(map k | k in visible && k in Hit(visible, table, holds) :: visible[k])
    case Update(table, holds, _, _, skip) => Count(|Hit(Visible(env, db, active, skip), table, holds)|)
    case Delete(table, holds, skip) => Count(|Hit(Visible(env, db, active, skip), table, holds)|)
    case Insert(_, _, _) => Inserted
  }

  /** One statement under the hooks: a violated constraint raises and changes nothing. */
  function Apply(env: Env, db: Db, active: Option<string>, op: DbOp): (Db, Obs) {
    if Violates(env, db, active, op) then (db, IntegrityError)
    else (After(env, db, active, op), Answer(env, db, active, op))
  }

  /** The statement with `org_id = :a` added to its condition, and to every listed table its joins and subqueries
      read. */
  function WithOrgPredicate(env: Env, a: string, op: DbOp): DbOp {
    match op
    case Select(table, holds, _) => Select(table, Restricted(env, a, holds), true)
    case Update(table, holds, assign, newOrg, _) =>
      Update(table, Restricted(env, a, holds), (v: Db, k: Key) => assign(Visible(env, v, Some(a), false), k), newOrg,
             true)
    case Delete(table, holds, _) => Delete(table, Restricted(env, a, holds), true)
    case Insert(_, _, _) => op
  }

  function Restricted(env: Env, a: string, holds: (Db, Key) -> bool): (Db, Key) -> bool {
    (v: Db, k: Key) => k in v && (k.table in env.scoped ==> v[k].org == a) && holds(Visible(env, v, Some(a), false), k)
  }

  /** Two statements that rewrite, write and remove the same rows of a database. */
  ghost predicate SameRows(env: Env, env': Env, db: Db, active: Option<string>, active': Option<string>, op: DbOp,
                           op': DbOp) {
    && env.schema == env'.schema && (op.Delete? <==> op'.Delete?) && (op.Insert? <==> op'.Insert?)
    && (op.Insert? ==> op.key == op'.key)
    && Rewritten(env, db, active, op) == Rewritten(env', db, active', op')
    && Written(env, db, active, op) == Written(env', db, active', op')
    && Removed(env, db, active, op) == Removed(env', db, active', op')
  }

  lemma SameAfter(env: Env, env': Env, db: Db, active: Option<string>, active': Option<string>, op: DbOp, op': DbOp)
    requires SameRows(env, env', db, active, active', op, op')
    ensures After(env, db, active, op) == After(env', db, active', op')
  {
  }

  lemma SameLookups(env: Env, env': Env, db: Db, active: Option<string>, active': Option<string>, op: DbOp, op': DbOp)
    requires SameRows(env, env', db, active, active', op, op')
    ensures Asked(env, db, active, op) == Asked(env', db, active', op')
    ensures Named(env, db, active, op) == Named(env', db, active', op')
  {
  }

  lemma SameViolation(env: Env, env': Env, db: Db, active: Option<string>, active': Option<string>, op: DbOp,
                      op': DbOp)
    requires env.schema == env'.schema && (op.Insert? <==> op'.Insert?) && (op.Insert? ==> op.key == op'.key)
    requires After(env, db, active, op) == After(env', db, active', op')
    requires Asked(env, db, active, op) == Asked(env', db, active', op')
    requires Named(env, db, active, op) == Named(env', db, active', op')
    ensures Violates(env, db, active, op) <==> Violates(env', db, active', op')
  {
  }

  /** What a statement does is decided by those rows. */
  lemma SameEffect(env: Env, env': Env, db: Db, active: Option<string>, active': Option<string>, op: DbOp, op': DbOp)
    requires SameRows(env, env', db, active, active', op, op')
    requires Answer(env, db, active, op) == Answer(env', db, active', op')
    ensures Apply(env, db, active, op) == Apply(env', db, active', op')
    ensures Touched(env, db, active, op) == Touched(env', db, active', op')
  {
    SameAfter(env, env', db, active, active', op, op');
    SameLookups(env, env', db, active, active', op, op');
    SameViolation(env, env', db, active, active', op, op');
  }

  lemma SameHits(env: Env, db: Db, a: string, op: DbOp)
    requires !op.Insert? && !op.skipFilter
    ensures Visible(env, db, None, true) == db
    ensures Hit(Visible(env, db, Some(a), false), op.table, op.holds)
            == Hit(db, op.table, Restricted(env, a, op.holds))
  {
    assert Visible(env, db, None, true) == db;
  }

  /** The hook's promise: under an active org a statement is the unfiltered statement with the predicate added. */
  lemma HookAddsOrgPredicate(env: Env, db: Db, a: string, op: DbOp)
    requires !op.Insert? && !op.skipFilter
    ensures Apply(env, db, Some(a), op) == Apply(env, db, None, WithOrgPredicate(env, a, op))
  {
    var added := WithOrgPredicate(env, a, op);
    SameHits(env, db, a, op);
    assert Rewritten(env, db, Some(a), op) == Rewritten(env, db, None, added);
    assert Written(env, db, Some(a), op) == Written(env, db, None, added);
    assert Answer(env, db, Some(a), op) == Answer(env, db, None, added);
    SameEffect(env, env, db, Some(a), None, op, added);
  }

  /** Every row of the table. */
  function AllOf(table: string): DbOp {
    Select(table, (v: Db, k: Key) => true, false)
  }

  predicate OnlyOrg(rows: Db, a: string) {
    forall k :: k in rows ==> rows[k].org == a
  }

  /** A table is closed to other tenants exactly when it is on the hook's list. */
  lemma FilteredExactlyWhenListed(env: Env, a: string, table: string)
    ensures (forall db :: OnlyOrg(Answer(env, db, Some(a), AllOf(table)).rows, a)) <==> table in env.scoped
  {
    if table !in env.scoped {
      var k, row := Key(table, "id"), Row(a + "'", map[]);
      var db: Db := map[k := row];
      assert k in Answer(env, db, Some(a), AllOf(table)).rows && |row.org| != |a|;
      assert !OnlyOrg(Answer(env, db, Some(a), AllOf(table)).rows, a);
    }
  }

  // ---- Programs that run statements inside tenant scopes ----

  /** What the innermost enclosing scope last set: nothing, a `run_as_system` scope, or an org. */
  datatype Setting = Unset | System | Org(org: string)

  function ContextOf(s: Setting): Option<string> {
    match s
    case Unset => None
    case System => Some(SYSTEM_CONTEXT)
    case Org(o) => Some(o)
  }

  /** One executed statement, with the org it ran under and the values the database looked up for it. */
  datatype Event = Event(active: Option<string>, innermost: Setting, op: DbOp, touched: set<Claim>, obs: Obs)

  type Trace = seq<Event>

  /** Code that touches tenant data. What it does next may depend on everything it has seen: `Do` chooses its
      statement, `Branch` its arm and `Repeat` its count from the trace. A violated constraint
      raises. */
  datatype Prog =
    | Do(choose: Trace -> DbOp)
    | Raise
    | SetOrg(org: string)
    | Then(first: Prog, second: Prog)
    | Branch(test: Trace -> bool, yes: Prog, no: Prog)
    | Repeat(times: Trace -> nat, body: Prog)
    | Try(body: Prog, handler: Prog)
    | AsSystem(body: Prog)
    | AsOrg(target: Option<string>, body: Prog)
    | RequestScope(body: Prog)

  datatype World = World(context: Option<string>, innermost: Setting, db: Db, trace: Trace)

  datatype Outcome = Outcome(world: World, raised: bool)

  /** Leaving a scope: the context variable is reset to what the token remembers, whether the body raised or not. */
  function LeaveScope(o: Outcome, token: Option<string>, outer: Setting): Outcome {
    Outcome(o.world.(context := token, innermost := outer), o.raised)
  }

  function Exec(p: Prog, env: Env, w: World): (o: Outcome)
    ensures w.trace <= o.world.trace
    decreases p, 0
  {
    match p
    case Do(choose) =>
      var op, active := choose(w.trace), ActiveOrg(env.multiTenancy, w.context);
      var (db, obs) := Apply(env, w.db, active, op);
      var touched := Touched(env, w.db, active, op);
      Outcome(w.(db := db, trace := w.trace + [Event(active, w.innermost, op, touched, obs)]), obs.IntegrityError?)
    case Raise => Outcome(w, true)
    case SetOrg(org) => Outcome(w.(context := Some(org), innermost := Org(org)), false)
    case Then(first, second) =>
      var o := Exec(first, env, w);
      if o.raised then o else Exec(second, env, o.world)
    case Branch(test, yes, no) => if test(w.trace) then Exec(yes, env, w) else Exec(no, env, w)
    case Repeat(times, body) => ExecTimes(body, times(w.trace), env, w)
    case Try(body, handler) =>
      var o := Exec(body, env, w);
      if o.raised then Exec(handler, env, o.world) else o
    case AsSystem(body) =>
      LeaveScope(Exec(body, env, w.(context := Some(SYSTEM_CONTEXT), innermost := System)), w.context, w.innermost)
    case AsOrg(target, body) =>
      if target.None? then Exec(body, env, w)
      else LeaveScope(Exec(body, env, w.(context := target, innermost := Org(target.value))), w.context, w.innermost)
    case RequestScope(body) =>
      LeaveScope(Exec(body, env, w.(context := None, innermost := Unset)), w.context, w.innermost)
  }

  function ExecTimes(body: Prog, n: nat, env: Env, w: World): (o: Outcome)
    ensures w.trace <= o.world.trace
    decreases body, n + 1
  {
    if n == 0 then Outcome(w, false)
    else
      var o := Exec(body, env, w);
      if o.raised then o else ExecTimes(body, n - 1, env, o.world)
  }

  /** Control flow is Python's: what raises ends the block and is caught by the nearest handler, and a branch takes the
      arm its test picks. */
  lemma ControlFlow(p: Prog, q: Prog, env: Env, w: World)
    ensures Exec(Then(Raise, p), env, w) == Outcome(w, true)
    ensures !Exec(p, env, w).raised ==> Exec(Then(p, q), env, w) == Exec(q, env, Exec(p, env, w).world)
    ensures Exec(Try(Raise, p), env, w) == Exec(p, env, w)
    ensures Exec(p, env, w).raised ==> Exec(Try(p, q), env, w) == Exec(q, env, Exec(p, env, w).world)
    ensures !Exec(p, env, w).raised ==> Exec(Try(p, q), env, w) == Exec(p, env, w)
  {
  }

  lemma BranchFlow(test: Trace -> bool, p: Prog, q: Prog, env: Env, w: World)
    ensures test(w.trace) ==> Exec(Branch(test, p, q), env, w) == Exec(p, env, w)
    ensures !test(w.trace) ==> Exec(Branch(test, p, q), env, w) == Exec(q, env, w)
  {
  }

  /** A loop that is to run n + 1 times runs its body once, and then n times unless that raised. */
  lemma LoopFlow(p: Prog, n: nat, env: Env, w: World)
    ensures ExecTimes(p, 0, env, w) == Outcome(w, false)
    ensures Exec(p, env, w).raised ==> ExecTimes(p, n + 1, env, w) == Exec(p, env, w)
    ensures !Exec(p, env, w).raised ==> ExecTimes(p, n + 1, env, w) == ExecTimes(p, n, env, Exec(p, env, w).world)
  {
  }

  // ---- The scopes ----

  /** The sentinel is never set as if it were an org. */
  predicate NoSentinel(p: Prog) {
    match p
    case SetOrg(org) => org != SYSTEM_CONTEXT
    case Then(first, second) => NoSentinel(first) && NoSentinel(second)
    case Branch(_, yes, no) => NoSentinel(yes) && NoSentinel(no)
    case Repeat(_, body) => NoSentinel(body)
    case Try(body, handler) => NoSentinel(body) && NoSentinel(handler)
    case AsSystem(body) => NoSentinel(body)
    case AsOrg(target, body) => target != Some(SYSTEM_CONTEXT) && NoSentinel(body)
    case RequestScope(body) => NoSentinel(body)
    case _ => true
  }

  predicate InStep(w: World) {
    w.context == ContextOf(w.innermost) && w.innermost != Org(SYSTEM_CONTEXT)
  }

  /** Unscoped exactly in a `run_as_system` scope. */
  predicate UnscopedOnlyAsSystem(trace: Trace, start: nat) {
    forall i :: start <= i < |trace| ==> (trace[i].active.None? <==> trace[i].innermost.System?)
  }

  lemma {:induction false} ScopesInStep(p: Prog, env: Env, w: World)
    requires env.multiTenancy && NoSentinel(p) && InStep(w)
    ensures InStep(Exec(p, env, w).world)
    ensures UnscopedOnlyAsSystem(Exec(p, env, w).world.trace, |w.trace|)
    decreases p, 0
  {
    match p
    case Then(first, second) =>
      ScopesInStep(first, env, w);
      ScopesInStep(second, env, Exec(first, env, w).world);
    case Branch(test, yes, no) =>
      ScopesInStep(yes, env, w);
      ScopesInStep(no, env, w);
    case Repeat(times, body) => LoopInStep(body, times(w.trace), env, w);
    case Try(body, handler) =>
      ScopesInStep(body, env, w);
      ScopesInStep(handler, env, Exec(body, env, w).world);
    case AsSystem(body) => ScopesInStep(body, env, w.(context := Some(SYSTEM_CONTEXT), innermost := System));
    case AsOrg(target, body) =>
      if target.None? {
        ScopesInStep(body, env, w);
      } else {
        ScopesInStep(body, env, w.(context := target, innermost := Org(target.value)));
      }
    case RequestScope(body) => ScopesInStep(body, env, w.(context := None, innermost := Unset));
    case _ =>
  }

  lemma {:induction false} LoopInStep(body: Prog, n: nat, env: Env, w: World)
    requires env.multiTenancy && NoSentinel(body) && InStep(w)
    ensures InStep(ExecTimes(body, n, env, w).world)
    ensures UnscopedOnlyAsSystem(ExecTimes(body, n, env, w).world.trace, |w.trace|)
    decreases body, n + 1
  {
    if n > 0 {
      ScopesInStep(body, env, w);
      LoopInStep(body, n - 1, env, Exec(body, env, w).world);
    }
  }

  /** The context variable is set directly only inside some scope that will reset it. */
  predicate SetsOnlyInScopes(p: Prog) {
    match p
    case SetOrg(_) => false
    case Then(first, second) => SetsOnlyInScopes(first) && SetsOnlyInScopes(second)
    case Branch(_, yes, no) => SetsOnlyInScopes(yes) && SetsOnlyInScopes(no)
    case Repeat(_, body) => SetsOnlyInScopes(body)
    case Try(body, handler) => SetsOnlyInScopes(body) && SetsOnlyInScopes(handler)
    case AsOrg(target, body) => target.Some? || SetsOnlyInScopes(body)
    case _ => true
  }

  /** However scopes nest and however they are left, the context afterwards is the context before. */
  lemma {:induction false} ContextRestored(p: Prog, env: Env, w: World)
    requires SetsOnlyInScopes(p)
    ensures Exec(p, env, w).world.context == w.context
    decreases p, 0
  {
    match p
    case Then(first, second) =>
      ContextRestored(first, env, w);
      ContextRestored(second, env, Exec(first, env, w).world);
    case Branch(test, yes, no) =>
      ContextRestored(yes, env, w);
      ContextRestored(no, env, w);
    case Repeat(times, body) => ContextRestoredTimes(body, times(w.trace), env, w);
    case Try(body, handler) =>
      ContextRestored(body, env, w);
      ContextRestored(handler, env, Exec(body, env, w).world);
    case AsOrg(target, body) =>
      if target.None? {
        ContextRestored(body, env, w);
      }
    case _ =>
  }

  lemma {:induction false} ContextRestoredTimes(body: Prog, n: nat, env: Env, w: World)
    requires SetsOnlyInScopes(body)
    ensures ExecTimes(body, n, env, w).world.context == w.context
    decreases body, n + 1
  {
    if n > 0 {
      ContextRestored(body, env, w);
      ContextRestoredTimes(body, n - 1, env, Exec(body, env, w).world);
    }
  }
}
