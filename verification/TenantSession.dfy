/** The running side of tenancy: the context variable with its tokens, the memoized model list, the hooked session, and
    `resolve_org_for` of apps/api/app/security.py. */
module TenantSession {
  import opened Prelude
  import opened PyStrings
  import opened Relational
  import opened Tenancy

  // ---- org_scoped_models ----

  /** A mapped class and whether its table has an `org_id` column. */
  datatype Mapper = Mapper(table: string, hasOrgId: bool)

  function ScopedTables(mappers: seq<Mapper>): seq<string> {
    if mappers == [] then []
    else if mappers[0].hasOrgId then [mappers[0].table] + ScopedTables(mappers[1..])
    else ScopedTables(mappers[1..])
  }

  lemma {:induction false} ScopedTablesSnoc(mappers: seq<Mapper>, m: Mapper)
    ensures ScopedTables(mappers + [m]) == ScopedTables(mappers) + if m.hasOrgId then [m.table] else []
  {
    if mappers == [] {
      assert [m][1..] == [];
    } else {
      ScopedTablesSnoc(mappers[1..], m);
      assert (mappers + [m])[1..] == mappers[1..] + [m];
    }
  }

  lemma {:induction false} ScopedTablesExact(mappers: seq<Mapper>, table: string)
    ensures table in ScopedTables(mappers) <==> Mapper(table, true) in mappers
  {
    if mappers != [] {
      ScopedTablesExact(mappers[1..], table);
      var m := Mapper(table, true);
      assert m in mappers <==> mappers[0] == m || m in mappers[1..];
    }
  }

  class ModelRegistry {
    var mappers: seq<Mapper>
    var cache: Option<seq<string>>

    constructor (mappers: seq<Mapper>)
      ensures this.mappers == mappers && cache == None
    {
      this.mappers, this.cache := mappers, None;
    }

    /** The list the filter uses: the memoized one, or the one that would be computed now. */
    function List(): (tables: seq<string>)
      reads this
    {
      cache.GetOr(ScopedTables(mappers))
    }

    /** The filter covers every table that has an `org_id` today: no model was registered behind the cache's back. */
    predicate Current()
      reads this
    {
      List() == ScopedTables(mappers)
    }

    /** A model registered at run time. */
    method Register(m: Mapper)
      modifies this
      ensures mappers == old(mappers) + [m] && cache == old(cache)
      ensures old(Current()) ==> (Current() <==> cache.None? || !m.hasOrgId)
    {
      ScopedTablesSnoc(mappers, m);
      mappers := mappers + [m];
    }

    method ResetOrgScopedModels()
      modifies this
      ensures cache == None && mappers == old(mappers) && Current()
    {
      cache := None;
    }

    /** The memoized list is the list for today's registry exactly when the cache is current. */
    method OrgScopedModels() returns (tables: seq<string>)
      modifies this`cache
      ensures cache == Some(tables)
      ensures tables == List() == old(List())
      ensures tables == ScopedTables(mappers) <==> old(Current())
    {
      if cache.Some? {
        return cache.value;
      }
      var models: seq<string> := [];
      for i := 0 to |mappers|
        invariant cache == old(cache)
        invariant models == ScopedTables(mappers[..i])
      {
        assert mappers[..i + 1] == mappers[..i] + [mappers[i]];
        ScopedTablesSnoc(mappers[..i], mappers[i]);
        if mappers[i].hasOrgId {
          models := models + [mappers[i].table];
        }
      }
      assert mappers[..|mappers|] == mappers;
      cache := Some(models);
      tables := models;
    }
  }

  // ---- resolve_org_for ----

  datatype HttpError = SignInRequired | OrganizationNotFound | NotAMember

  const MEMBERSHIPS := "memberships"

  /** What the header asks for: a missing, empty or blank one the default org, any other the org that is left of it
      without the white space around it. */
  ghost predicate Asks(xOrgId: Option<string>, org: string) {
    if xOrgId.None? || Blank(xOrgId.value) then org == "default"
    else org != "" && Trimmed(org) && exists a, b :: Blank(a) && Blank(b) && xOrgId.value == a + org + b
  }

  /** A header asks for one org. */
  lemma AsksForOne(xOrgId: Option<string>, org: string, other: string)
    requires Asks(xOrgId, org) && Asks(xOrgId, other)
    ensures org == other
  {
    if xOrgId.Some? && !Blank(xOrgId.value) {
      var a, b :| Blank(a) && Blank(b) && xOrgId.value == a + org + b;
      var a', b' :| Blank(a') && Blank(b') && xOrgId.value == a' + other + b';
      StripOf(a, org, b);
      StripOf(a', other, b');
    }
  }

  lemma BlankStrips(s: string)
    ensures Blank(s) <==> Strip(s) == ""
  {
    var a, b := StripCuts(s);
    assert Strip(s) == "" ==> s == a + b;
    if Blank(s) {
      StripOf(s, "", "");
      assert s + "" + "" == s;
    }
  }

  /** `(x_org_id or DEFAULT_ORG_ID).strip() or DEFAULT_ORG_ID` is that org. */
  lemma StrippedIsAsked(xOrgId: Option<string>)
    ensures var named := if xOrgId.None? || xOrgId.value == "" then DEFAULT_ORG_ID else xOrgId.value;
      Asks(xOrgId, if Strip(named) == "" then DEFAULT_ORG_ID else Strip(named))
  {
    StripTrims(DEFAULT_ORG_ID);
    if xOrgId.Some? {
      BlankStrips(xOrgId.value);
      StripTrims(xOrgId.value);
      var a, b := StripCuts(xOrgId.value);
    }
  }

  /** The membership table, unfiltered, holds the pair. */
  predicate IsMember(db: Db, org: string, user: string) {
    exists k :: k in db && k.table == "memberships" && db[k].org == org
                && "user_id" in db[k].fields && db[k].fields["user_id"] == user
  }

  predicate MembershipOf(k: Key, row: Row, org: string, user: string) {
    k.table == MEMBERSHIPS && row.org == org && "user_id" in row.fields && row.fields["user_id"] == user
  }

  /** The membership query as the program issues it. */
  function MembershipQuery(org: string, user: string): DbOp {
    Select(MEMBERSHIPS, (visible: Db, k: Key) => k in visible && MembershipOf(k, visible[k], org, user), false)
  }

  /** The filter, if it has the membership table on its list, lets the org's rows through. */
  predicate LetsThrough(env: Env, active: Option<string>, org: string) {
    MEMBERSHIPS !in env.scoped || active == None || active == Some(org)
  }

  lemma FoundIsMember(env: Env, db: Db, active: Option<string>, org: string, user: string)
    ensures var found := Answer(env, db, active, MembershipQuery(org, user));
      && found.Rows?
      && forall k :: k in found.rows <==> k in db && MembershipOf(k, db[k], org, user) && LetsThrough(env, active, org)
  {
  }

  /** Run through the filter, the query finds the pair exactly when it is there and the active org is this org or
      nothing. Under any other context, as it was before the request's org is set, it would refuse every member. */
  lemma FilteredLookup(env: Env, db: Db, active: Option<string>, org: string, user: string)
    ensures var (after, found) := Apply(env, db, active, MembershipQuery(org, user));
      && after == db && found.Rows?
      && (found.rows != map[] <==> IsMember(db, org, user) && LetsThrough(env, active, org))
  {
    QueryRaisesNothing(env, db, active, MembershipQuery(org, user));
    FoundIsMember(env, db, active, org, user);
    var found := Answer(env, db, active, MembershipQuery(org, user)).rows;
    if k :| k in found {
      assert MembershipOf(k, db[k], org, user);
    }
    if IsMember(db, org, user) && LetsThrough(env, active, org) {
      var k :| k in db && k.table == "memberships" && db[k].org == org
               && "user_id" in db[k].fields && db[k].fields["user_id"] == user;
      assert MembershipOf(k, db[k], org, user) && k in found;
    }
  }

  lemma QueryRaisesNothing(env: Env, db: Db, active: Option<string>, op: DbOp)
    requires op.Select?
    ensures Apply(env, db, active, op) == (db, Answer(env, db, active, op))
  {
    assert After(env, db, active, op) == db;
  }

  /** An insert, an unscoped statement and one that opts out do not depend on the list of tables. */
  lemma ListUnused(env: Env, scoped: set<string>, db: Db, active: Option<string>, op: DbOp)
    requires active.None? || op.Insert? || op.skipFilter
    ensures var other := env.(scoped := scoped);
      && Apply(other, db, active, op) == Apply(env, db, active, op)
      && Touched(other, db, active, op) == Touched(env, db, active, op)
  {
    var other := env.(scoped := scoped);
    if !op.Insert? {
      assert Visible(other, db, active, op.skipFilter) == Visible(env, db, active, op.skipFilter);
    }
    assert Rewritten(other, db, active, op) == Rewritten(env, db, active, op);
    SameEffect(other, env, db, active, active, op, op);
  }

  /** The context set for the org a header asks for scopes to that org, unless it is the sentinel's name. */
  lemma ResolvedOrgIsActive(xOrgId: Option<string>, org: string)
    requires Asks(xOrgId, org)
    ensures ActiveOrg(true, Some(org)) == Some(org) <==> org != "__system__"
  {
  }

  // ---- The session ----

  function TableSet(tables: seq<string>): set<string> {
    set t | t in tables
  }

  /** One task's context variable and the database behind its session, with the process's list of models. */
  class TenantTask {
    const multiTenancy: bool
    const schema: Schema
    const registry: ModelRegistry
    var currentOrg: Option<string>
    var db: Db
    var trace: Trace
    var innermost: Setting

    constructor (multiTenancy: bool, schema: Schema, registry: ModelRegistry, db: Db)
      ensures this.multiTenancy == multiTenancy && this.schema == schema && this.registry == registry
      ensures this.db == db && currentOrg == None && trace == [] && innermost == Unset
    {
      this.multiTenancy, this.schema, this.registry, this.db := multiTenancy, schema, registry, db;
      this.currentOrg, this.trace, this.innermost := None, [], Unset;
    }

    ghost function Now(): World
      reads this
    {
      World(currentOrg, innermost, db, trace)
    }

    /** The tables the filter covers are those on the list as it stands, memoized or not. */
    ghost function Around(): Env
      reads this, registry
    {
      Env(multiTenancy, TableSet(registry.List()), schema)
    }

    /** With a current list, isolation holds for exactly the tables of today's models with an `org_id`; a model
        registered behind the cache is left out of it. */
    lemma FilterCoversModels(table: string)
      ensures registry.Current() ==> (table in Around().scoped <==> Mapper(table, true) in registry.mappers)
      ensures table in Around().scoped <==> table in registry.List()
    {
      ScopedTablesExact(registry.mappers, table);
    }

    /** `current_org_id.set(...)`: the token remembers the value before. */
    method SetContext(org: Option<string>, setting: Setting) returns (token: Option<string>)
      modifies this`currentOrg, this`innermost
      ensures currentOrg == org && innermost == setting && token == old(currentOrg)
    {
      token := currentOrg;
      currentOrg := org;
      innermost := setting;
    }

    /** `current_org_id.reset(token)` */
    method ResetContext(token: Option<string>, outer: Setting)
      modifies this`currentOrg, this`innermost
      ensures currentOrg == token && innermost == outer
    {
      currentOrg := token;
      innermost := outer;
    }

    /** One statement through the session's hooks. The list of models is asked for only when there is a filter to
        add. */
    method Execute(op: DbOp) returns (obs: Obs)
      modifies this`db, this`trace, registry`cache
      ensures Around() == old(Around())
      ensures var env, active := Around(), ActiveOrg(multiTenancy, currentOrg);
        && (db, obs) == Apply(env, old(db), active, op)
        && trace == old(trace) + [Event(active, innermost, op, Touched(env, old(db), active, op), obs)]
    {
      var active := ActiveOrg(multiTenancy, currentOrg);
      var tables: seq<string> := [];
      if active.Some? && !op.Insert? && !op.skipFilter {
        tables := registry.OrgScopedModels();
      } else {
        ListUnused(Around(), {}, db, active, op);
        assert Around().(scoped := {}) == Env(multiTenancy, TableSet(tables), schema);
      }
      var env := Env(multiTenancy, TableSet(tables), schema);
      var result, touched := Apply(env, db, active, op), Touched(env, db, active, op);
      db, obs := result.0, result.1;
      trace := trace + [Event(active, innermost, op, touched, obs)];
    }

    method RunStatement(choose: Trace -> DbOp) returns (raised: bool)
      modifies this, registry`cache
      ensures Outcome(Now(), raised) == Exec(Do(choose), old(Around()), old(Now()))
      ensures Around() == old(Around())
    {
      var obs := Execute(choose(trace));
      raised := obs.IntegrityError?;
    }

    /** Code inside tenant scopes, run against the live context variable. */
    method Run(p: Prog) returns (raised: bool)
      modifies this, registry`cache
      ensures Outcome(Now(), raised) == Exec(p, old(Around()), old(Now()))
      ensures Around() == old(Around())
      decreases p, 0
    {
      match p
      case Do(choose) =>
        raised := RunStatement(choose);
      case Raise =>
        raised := true;
      case SetOrg(org) =>
        var _ := SetContext(Some(org), Org(org));
        raised := false;
      case Then(first, second) =>
        raised := Run(first);
        if !raised {
          raised := Run(second);
        }
      case Branch(test, yes, no) =>
        if test(trace) {
          raised := Run(yes);
        } else {
          raised := Run(no);
        }
      case Repeat(times, body) =>
        raised := RunTimes(body, times(trace));
      case Try(body, handler) =>
        raised := Run(body);
        if raised {
          raised := Run(handler);
        }
      case AsSystem(body) =>
        raised := RunScoped(Some(SYSTEM_CONTEXT), System, body);
      case AsOrg(target, body) =>
        if target.None? {
          raised := Run(body);
        } else {
          raised := RunScoped(target, Org(target.value), body);
        }
      case RequestScope(body) =>
        raised := RunScoped(None, Unset, body);
    }

    /** set, run, and reset on every way out. */
    method RunScoped(context: Option<string>, setting: Setting, body: Prog) returns (raised: bool)
      modifies this, registry`cache
      ensures Outcome(Now(), raised) ==
              LeaveScope(Exec(body, old(Around()), old(Now()).(context := context, innermost := setting)),
                         old(currentOrg), old(innermost))
      ensures currentOrg == old(currentOrg) && Around() == old(Around())
      decreases body, 1
    {
      var outer := innermost;
      var token := SetContext(context, setting);
      raised := Run(body);
      ResetContext(token, outer);
    }

    method RunTimes(body: Prog, n: nat) returns (raised: bool)
      modifies this, registry`cache
      ensures Outcome(Now(), raised) == ExecTimes(body, n, old(Around()), old(Now()))
      ensures Around() == old(Around())
      decreases body, n + 1
    {
      if n == 0 {
        return false;
      }
      raised := Run(body);
      if !raised {
        raised := RunTimes(body, n - 1);
      }
    }

    /** The membership query, through the hook like every other SELECT. */
    method FindMembership(org: string, user: string) returns (found: bool)
      modifies this`db, this`trace, registry`cache
      ensures db == old(db) && Around() == old(Around())
      ensures found <==> IsMember(db, org, user) && LetsThrough(Around(), ActiveOrg(multiTenancy, currentOrg), org)
    {
      FilteredLookup(Around(), db, ActiveOrg(multiTenancy, currentOrg), org, user);
      var member := Execute(MembershipQuery(org, user));
      found := member.rows != map[];
    }

    /** `resolve_org_for`: sets the context first, then checks. */
    method ResolveOrgFor(xOrgId: Option<string>, user: Option<string>, organizations: set<string>)
      returns (result: Result<Option<string>, HttpError>)
      modifies this, registry`cache
      ensures db == old(db) && Around() == old(Around())
      ensures !multiTenancy ==> result == Ok(None) && Now() == old(Now())
      // The context is the org the header names; a clean header is that org as it stands.
      ensures multiTenancy ==> currentOrg.Some? && Asks(xOrgId, currentOrg.value)
      ensures multiTenancy && xOrgId.Some? && xOrgId.value != "" && Trimmed(xOrgId.value) ==> currentOrg == xOrgId
      ensures multiTenancy ==> var org := currentOrg.value;
        && result == (
             if user.None? then (if org == "default" then Ok(Some(org)) else Err(SignInRequired))
             else if org !in organizations then Err(OrganizationNotFound)
             else if IsMember(db, org, user.value) then Ok(Some(org))
             else Err(NotAMember))
        && (org != "__system__" ==> ActiveOrg(multiTenancy, currentOrg) == Some(org))
      // An accepted request is scoped to the org it was accepted for: no organization carries the sentinel as its id.
      ensures "__system__" !in organizations && result.Ok? && result.value.Some? ==>
                ActiveOrg(multiTenancy, currentOrg) == result.value
    {
      if !multiTenancy {
        return Ok(None);
      }
      var named := if xOrgId.None? || xOrgId.value == "" then DEFAULT_ORG_ID else xOrgId.value;
      var org := if Strip(named) == "" then DEFAULT_ORG_ID else Strip(named);
      var _ := SetContext(Some(org), Org(org));
      StrippedIsAsked(xOrgId);
      ResolvedOrgIsActive(xOrgId, org);
      if xOrgId.Some? {
        StripTrims(xOrgId.value);
      }
      if user.None? {
        return if org != DEFAULT_ORG_ID then Err(SignInRequired) else Ok(Some(org));
      }
      if org !in organizations {
        return Err(OrganizationNotFound);
      }
      var member := FindMembership(org, user.value);
      result := if member then Ok(Some(org)) else Err(NotAMember);
    }
  }
}
