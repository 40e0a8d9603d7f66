# Nodyra: verified models of its stateful cores

This Dafny 4.11 project models the parts of Nodyra whose correctness is easiest to lose: tenant isolation, the
client's identity protocol, the introspection cache and circuit breaker, crash-safe maintenance, the request-body gate,
and the text tools around them. Each module restates one piece of the source, branch by branch, and proves what the
source or its documentation promises about it. `dafny verify dfyconfig.toml` checks everything.

State that the source changes in place is a class here. Its methods do the updates step by step, and each is proved
equal to a function of the state before; the theorems about whole runs are lemmas about those functions. Crashes are
handled by a ghost log of every durable state, so a claim "at every crash point" is a claim about every entry of it.

| module | what it models |
|---|---|
| `Relational` | rows, unique indexes and foreign keys, and the closure of a cascading delete |
| `Tenancy` | `active_org_id`, the scopes, the ORM hooks, and programs that run statements inside scopes |
| `Statements` | what one statement does, row by row, and when it raises |
| `Isolation` | that statements under the filter change no other tenant's rows, and what they can tell about them |
| `TenantSession` | the context variable with its tokens, the memoized model list, the hooked session, `resolve_org_for` |
| `TextSweep` | `_replace_text` and the theory of `str.replace` it needs |
| `WorkflowCommand` | `_github_escape` |
| `Identity`, `IdentityPage`, `IdentityAborts` | the identity handlers of `App.tsx`, the page object, the protocol it refines |
| `Introspection`, `IntrospectionGate` | the introspection cache and breaker under overlapping requests, and their globals |
| `KekMigration`, `StartupRecovery` | the batched key migration; the two recovery transactions |
| `BodyLimit`, `JsonTree` | the body gate; the NUL scan and the storage-field redaction |
| `EnvFile`, `DemoEnv` | the env-file parser and printer; `validate_values` and `ensure_demo_env` |
| `LabelMaps` | the two label parsers |
| `Rollout` | the canary gate |
| `PyStrings`, `PyDict`, `Prelude` | Python strings and insertion-ordered dicts |

The isolation theorems rest on two things the filter does not give by itself. What a statement can observe depends on
the keys and unique values it names; what it can modify does not. And a DELETE follows foreign keys past the filter, so
no other tenant's row may refer to a row it reaches: `Isolation.CrossedReferenceCascades` shows a row going that way,
`Isolation.ForeignRowChangedExactly` says which rows do, and `Isolation.TenantsStaySeparated` that no such reference
arises as long as statements name no key of another tenant, which the routes see to by looking rows up through the
filter first (`apps/api/app/routers/workflows.py:977-985`).

## Findings

Where the code falls short of what is said about it, the model follows the code and the condition is exact.

* `apps/web/src/App.tsx:142-144` says every bootstrap failure but a 404 keeps probing. A 401 does not: the API client
  runs the 401 handler before it rejects the call (`apps/web/src/api.ts:332-335`), the handler moves the revision, and
  the failed call is then dropped as stale without a retry. `IdentityAborts.RefusedBootstrapStrands` is the concrete
  run. `IdentityAborts.StrandedExactlyWhen` says, for every state of a waiting page and every event, when nothing is
  left that will ask: no retry timer runs, and a 401 came in on any call, or the last call that would be looked at, a
  focus call or the one after a logout, failed (`IdentityAborts.SignOutWhileWaiting` is a run of the second kind).
* `scripts/migrate_kms.py` with `--batch-size 0` raises inside the `try` after each update, so every updated row is
  also logged as an error: `KekMigration.ZeroBatchCountsTwice` migrates one row and logs one update and one error.
  `KekMigration.TallyCounts`: the counters add up exactly when the batch size is not 0, the run is a dry one, or no row
  converts.
* `scripts/migrate_kms.py:25-27` says a second run re-encrypts rows already migrated. No run does: with the same source
  and target `main` returns at once (`KekMigration.MigrationSession.FromCommandLine`), and otherwise those rows no
  longer decrypt under the source. `KekMigration.SecondRunFails` is the run of one row; `KekMigration.SecondRunCounts`
  says for every earlier run, complete or not, that the migrated rows are the errors added and the other rows are
  counted as in a first run.

## Model

| member | source | states |
|---|---|---|
| Isolation.RunsKeepOutside | apps/api/app/tenancy.py:188-201 | Integrity, whatever keys, references and unique values are tried: a run of any program whose statements keep the filter, write rows of their orgs only and delete no row of a root table leaves every other tenant's row as it was; only a run that deletes asks that no foreign row refers to a row inside |
| Isolation.Noninterference | apps/api/app/tenancy.py:168-201 | Two-run noninterference: take a run (of any program, with nested scopes, loops, exceptions and decisions taken on what it has seen) whose statements ran under orgs in a set, kept the filter, wrote rows of those orgs only, deleted no row of a root table, and neither asked for a unique value nor referred to a row of another tenant; in every database with the same rows for those orgs the program sees, decides and raises the same, those rows end equal, and every other org's rows are untouched in both (no foreign row referring to an own one) |
| Isolation.RunsAsIfAlone | apps/api/app/tenancy.py:168-201 | A confined run is, step for step, the run in the database from which all other tenants' rows were removed |
| Isolation.ApplyConfined | apps/api/app/tenancy.py:169-193 | One confined SELECT, UPDATE, DELETE (with all it cascades to) or INSERT, whose conditions and values may look at everything it can see, commutes with removing the other tenants' rows, and does not change those |
| Isolation.OutsideUntouched | apps/api/app/tenancy.py:188-201 | The same for one statement: an UPDATE or INSERT needs no condition on what it names, a DELETE only that no foreign row refers to a row inside |
| Isolation.ForeignRowChangedExactly | apps/api/app/models.py:785-787 | Without that: a DELETE under the filter removes or empties a foreign row exactly when a chain of references, cascading after the first, leads from it to a row the DELETE hits; no other statement changes one |
| Isolation.CrossedReferenceCascades | apps/api/app/models.py:785-787 | A run of another org that names the deleted workflow goes with it, though the DELETE touches no foreign key or value |
| Isolation.TenantsStaySeparated | apps/api/app/routers/workflows.py:977-985 | However the confined statements of all tenants interleave, no reference ever crosses from one tenant's row to another's, so the condition of the theorems holds throughout |
| Relational.ChangedByChain | apps/api/app/models.py:785-825 | The closure of ON DELETE CASCADE and SET NULL: a row changes exactly when a chain of references leads from it to a deleted row |
| Relational.DeletedRefersOn | apps/api/app/models.py:785-825 | A delete leaves no reference to a row it removed |
| Isolation.TenantIntegrity | apps/api/app/tenancy.py:64-77 | Code that runs in org A's context and opens no scope leaves every other tenant's row as it was, whatever keys and values it names |
| Isolation.TenantIsolation | apps/api/app/tenancy.py:64-77 | Code that runs in org A's context, opens no scope and touches no key or unique value another tenant may hold can neither change nor observe another tenant's rows, however it reacts to what it reads, where no other tenant's row refers to one of A |
| Isolation.StaysPutConfined | apps/api/app/tenancy.py:64-77 | Such code runs every statement under A and leaves the context variable alone |
| Statements.UpdateWrites | apps/api/app/tenancy.py:168-193 | An UPDATE that raises nothing: every row it can see in its table that meets its condition holds exactly the assigned values, under the new org if one is set; every other row and the keys are as before; the answer counts those rows |
| Statements.InsertAdds | apps/api/app/tenancy.py:142-151 | An INSERT that raises nothing adds exactly its row, under the org it names, else the active one, else the default |
| Statements.DeleteRemoves | apps/api/app/tenancy.py:168-193 | A DELETE counts the rows it means and leaves, column by column, exactly what no cascade takes along, with the SET NULL columns that named a deleted row emptied |
| Statements.SelectShows | apps/api/app/tenancy.py:168-193 | A SELECT answers with exactly the rows it can see in its table that meet its condition, as they are |
| Statements.UpdateRaisesExactly | apps/api/app/models.py:1584-1590 | An UPDATE raises exactly when a row it means comes to hold the values of a unique index that another row holds, or to name a row that is missing |
| Statements.InsertRaisesExactly | apps/api/app/models.py:1584-1590 | An INSERT raises exactly when its key or the values of one of its unique indexes are taken, or it names a row that is missing |
| Statements.RaisesUnchanged | apps/api/app/tenancy.py:168-201 | A statement that raises changes nothing |
| Statements.ActiveOrgExact | apps/api/app/tenancy.py:64-77 | The active org for every setting: none without multi-tenancy or in a system scope, the default when unset or empty, else the org that was set |
| Relational.DeletedExact | apps/api/app/models.py:785-825 | What a delete leaves, by columns: which rows stay, and which of their values are emptied |
| Relational.ClaimsExact | apps/api/app/models.py:860-865 | Two rows exclude each other exactly when they share the values of a unique index that covers both |
| Tenancy.HookAddsOrgPredicate | apps/api/app/tenancy.py:182-193 | A scoped SELECT, UPDATE or DELETE is the unscoped one with `org_id = :active` added to its condition and to every listed table its joins and subqueries read: same rows, same count, same table afterwards, same violations |
| Isolation.RevealsForeignClaimsOnly | apps/api/app/models.py:1584-1590 | All that a statement confined to its orgs can tell about other tenants: whether a foreign row holds a primary key or unique value it asks for (an SSO email domain, a deduplication key), or is a row its foreign keys name; two databases that agree inside give the same answer exactly when they agree on that, or a value is taken inside anyway |
| Tenancy.FilteredExactlyWhenListed | apps/api/app/tenancy.py:133-139 | A full scan of a table under org A shows rows of A only, in every database, exactly when the table is on the hook's list |
| Tenancy.ContextRestored | apps/api/app/tenancy.py:80-105 | Whatever nests and however it is left, by return or exception, the context variable afterwards is what it was before, if it is only set directly inside a scope |
| Tenancy.ScopesInStep | apps/api/app/tenancy.py:64-105 | With multi-tenancy on and the sentinel never set as an org, a statement runs unscoped exactly when the innermost setting is a `run_as_system` scope |
| TenantSession.TenantTask.Run | apps/api/app/main.py:916-925 | The interpreter that sets, runs and resets the live context variable, with token, does what the scope semantics says, for every program |
| TenantSession.TenantTask.FilterCoversModels | apps/api/app/tenancy.py:121-139 | The tables under the filter, for which isolation is proved, are those of every mapped class with an `org_id` while the memoized list is current |
| TenantSession.TenantTask.RunScoped | apps/api/app/tenancy.py:80-105 | A scope resets to its token on every way out |
| TenantSession.TenantTask.Execute | apps/api/app/tenancy.py:168-201 | A statement runs under the active org of this moment and the memoized list of tables, which is asked for only when there is a filter to add, and is recorded with what the database looked up for it |
| TenantSession.TenantTask.ResolveOrgFor | apps/api/app/security.py:473-526 | The context is the org the header asks for: a missing, empty or blank one the default, any other what is left of it without the white space around it. Accepts a signed-in user exactly when that organization exists and the unfiltered membership table holds the pair; the error otherwise; an accepted request is scoped to the org it was accepted for, as no organization has the sentinel for its id |
| TenantSession.TenantTask.FindMembership | apps/api/app/security.py:517-522 | The membership query through the session's hook |
| TenantSession.FilteredLookup | apps/api/app/security.py:480-484 | The membership query finds the pair through the filter exactly when it is there and the active org is that org or nothing, or the table is not on the hook's list; so setting the context afterwards would refuse every member |
| TenantSession.AsksForOne | apps/api/app/security.py:487 | A header asks for one org only |
| TenantSession.ResolvedOrgIsActive | apps/api/app/security.py:487-488 | Once it is set, the org a header asks for is the active org exactly when it is not the system sentinel |
| TenantSession.ModelRegistry.OrgScopedModels | apps/api/app/tenancy.py:121-139 | The memoized list is the list for today's mappers exactly when nothing was registered behind the cache |
| TenantSession.ModelRegistry.Register | apps/api/app/tenancy.py:108-118 | A late registration makes the cache stale exactly when a list is cached and the model has an `org_id` |
| TenantSession.ModelRegistry.ResetOrgScopedModels | apps/api/app/tenancy.py:114-118 | The next list is computed afresh |
| TenantSession.ScopedTablesExact | apps/api/app/tenancy.py:133-137 | The list holds exactly the mapped tables that carry an `org_id` column |
| TextSweep.SweepIdempotent | scripts/rename_to_nodyra.py:1-5 | Sweeping twice is sweeping once, for every text |
| TextSweep.ReplaceText | scripts/rename_to_nodyra.py:51-62 | The loops over lines and replacements compute the sweep of the text |
| TextSweep.SweepLineExact | scripts/rename_to_nodyra.py:54-61 | An exempt line is copied; on any other, every occurrence of an old spelling in the original becomes its replacement, every other character is kept, and no old spelling is left |
| TextSweep.SweepSpellings | scripts/rename_to_nodyra.py:23-49 | The same spelling by spelling: noodle, Noodle and NOODLE become nodyra, Nodyra and NODYRA, and none is left, on every line without one of the three markers |
| TextSweep.SweepLineFixpoint | scripts/rename_to_nodyra.py:54-61 | A line is unchanged exactly when it is exempt or holds no old spelling |
| TextSweep.SweepKeepsLines | scripts/rename_to_nodyra.py:52-62 | The lines of the swept text are the swept lines: length and every line break stay where they were |
| TextSweep.SweepRewritesIff | scripts/rename_to_nodyra.py:74-77 | A file is rewritten exactly when some line that is not exempt holds an old spelling |
| TextSweep.NoNewOccurrences | scripts/rename_to_nodyra.py:59-60 | A replacement creates no occurrence of any spelling: what occurs afterwards occurred before, and is not what was replaced |
| TextSweep.ApplyAllReplaces | scripts/rename_to_nodyra.py:59-60 | An occurrence in the original line survives the replacements before its own and its copy survives those after |
| TextSweep.ApplyAllKeeps | scripts/rename_to_nodyra.py:59-60 | A character outside every spelling of the original line is kept through all replacements |
| TextSweep.ApplyAllCreatesNothing | scripts/rename_to_nodyra.py:59-60 | Nothing incompatible with the replacements occurs after them that did not occur before, and none of the replaced spellings |
| TextSweep.ReplacementsIndependent | scripts/rename_to_nodyra.py:21 | The table's spellings keep their length and can overlap neither each other nor a replacement |
| PyStrings.LinesExact | scripts/rename_to_nodyra.py:52-62 | The lines joined are the text; each is one line, all but the last end in a break, and no CR LF is torn apart |
| PyStrings.LinesWithoutBreaks | scripts/generate_demo_env.py:56-58 | `splitlines` without `keepends` gives the same lines without their breaks |
| PyStrings.StripCuts | apps/api/app/security.py:487 | `strip` cuts white space off both ends, and nothing else |
| PyStrings.StripOf | apps/api/app/security.py:487 | Whatever white space stands around a trimmed string, `strip` gives that string back |
| PyStrings.SplitOnExact | apps/api/app/config.py:629 | The parts of `split` hold no separator, and joined with it they are the string |
| PyStrings.ConcatSplitLinesKeep | scripts/rename_to_nodyra.py:52-62 | Joining the kept lines gives the text back |
| WorkflowCommand.GithubEscapeBijective | scripts/report_flaky_tests.py:60-61 | Escaping is a bijection between all strings and the well-formed messages, which hold no CR or LF |
| WorkflowCommand.EscapeIsOnePass | scripts/report_flaky_tests.py:60-61 | The three successive replacements equal one pass over the characters |
| WorkflowCommand.GithubEscapeInjective | scripts/report_flaky_tests.py:60-61 | Different messages stay different |
| Identity.SignOutHolds | apps/web/src/App.tsx:206-227 | For every interleaving: from a sign-out to the next sign-in the page is never signed in |
| Identity.TakesOnlyTheUser | apps/web/src/App.tsx:177-183 | A sign-out, or a 401 on any call, takes the user away from the identity the page shows, and nothing else |
| Identity.SignInScreenStays | apps/web/src/App.tsx:206-227 | For every interleaving: from a sign-out up to the next sign-in or applied identity, whatever fails in whatever order, the page keeps all it knew but the user: it stays on its sign-in screen |
| Identity.SignInShows | apps/web/src/App.tsx:191-204 | What a sign-in makes of the identity, field by field |
| Identity.NotFoundShows | apps/web/src/App.tsx:168-171 | A 404 for a live bootstrap call stands for a server without sign-in |
| Identity.AppliedIdentityIsFresh | apps/web/src/App.tsx:138-141 | For every interleaving: an identity that is applied belongs to a request begun after the latest login, logout, 401 or unmount |
| Identity.OnlyThenAuthChanges | apps/web/src/App.tsx:146-246 | The auth state changes only at a transition, with an applied identity, or with a live bootstrap answer; an identity applied after a logout is stripped of its user |
| Identity.OnlyA404OpensUp | apps/web/src/App.tsx:142-144 | The page drops the sign-in requirement only on the server's word or on a 404 for a live bootstrap call |
| Identity.RunKeepsInv | apps/web/src/App.tsx:138-246 | On every run: signed out means not signed in and nothing pending that could change it; at most one probe (a timer or a live bootstrap call) is alive; a running timer has the delay of its retry count |
| Identity.BackoffSchedule | apps/web/src/App.tsx:161-167 | Through an outage of any length the retries wait 1, 2, 4, 8, 16, 30 and then 60 seconds each time |
| Identity.InFlightSince | apps/web/src/App.tsx:146-247 | A request in flight was in flight, with the same revision, ever since it was begun |
| IdentityAborts.RevisionsAbort | apps/web/src/App.tsx:138-246 | For every interleaving, the page with its revision counter and flag is at every moment the page without them on which each transition aborts all requests in flight |
| IdentityAborts.StepRefines | apps/web/src/App.tsx:138-246 | One event of the page is one event of that simpler page; a stale answer is no event, a stale 401 only a 401 |
| IdentityAborts.StrandedExactlyWhen | apps/web/src/App.tsx:142-170 | When a page that waits for its first identity has nothing left that will ask for it: exactly when no retry timer runs and a 401 comes in on any call, or the last live call is a focus call or the call after a logout, and fails |
| IdentityAborts.RefusedBootstrapStrands | apps/web/src/api.ts:332-335 | The first bootstrap call refused with a 401: no retry is ever scheduled, and without a focus event, a sign-in or a sign-out the page waits for ever |
| IdentityAborts.SignOutWhileWaiting | apps/web/src/App.tsx:206-226 | A sign-out while the page waits: it goes on asking through the logout and the call after it, and is stranded exactly when that call brings no identity |
| IdentityPage.AuthShell.Dispatch | apps/web/src/App.tsx:138-246 | The handlers, updating refs and state one by one, take exactly the protocol's step |
| IdentityPage.AuthShell.BootstrapDone | apps/web/src/App.tsx:150-173 | `loadAuth`'s two continuations |
| IdentityPage.AuthShell.SignOutClicked | apps/web/src/App.tsx:206-227 | `signOut`, up to the logout call it leaves in flight: the identity loses its user and nothing else |
| IdentityPage.AuthShell.CallDone | apps/web/src/App.tsx:146-246 | What the end of any call does, after the client has dealt with a 401 |
| IdentityPage.AuthShell.Unauthorized | apps/web/src/App.tsx:177-183 | The 401 handler, on the live refs and state: the identity loses its user and nothing else |
| IdentityPage.AuthShell.SignedIn | apps/web/src/App.tsx:191-204 | `onSignedIn`, on the live refs and state |
| IdentityPage.AuthShell.RefreshIdentity | apps/web/src/App.tsx:237-243 | The focus handler: no call while signed out |
| IdentityPage.AuthShell.RetryTimer | apps/web/src/App.tsx:146-167 | A retry timer that fires begins a call under the revision of that moment |
| IdentityPage.AuthShell.Unmounted | apps/web/src/App.tsx:184-188 | The effect's cleanup |
| Introspection.AnswersAsReference | apps/api/app/security.py:288-333 | For every interleaving under a monotone clock: each request is answered as an unbounded log with a 60 s lifetime and the list of finished calls would answer it (expiry and sweeps are never observable), and the failure counter is the failures since the latest success modulo 5, hence below 5 |
| Introspection.AskVerdicts | apps/api/app/security.py:288-312 | A request is served from the cache exactly when the newest active answer about its token is at most 60 s old, with that answer; otherwise it is refused exactly within 30 s of the latest opening, and else posted |
| Introspection.ReplyVerdicts | apps/api/app/security.py:313-333 | A reply lets its request through exactly when that was waiting and the payload is active |
| Introspection.RunRefines | apps/api/app/security.py:40-95 | The cache and breaker simulate that reference on every run |
| Introspection.ServedIsRecentAndActive | apps/api/app/security.py:50-72 | A payload served from the cache was the reply to a POST about this very token, said active, and arrived at most 60 s ago |
| Introspection.InFlightWasPosted | apps/api/app/security.py:301-312 | Every outstanding reply belongs to a request that was let through to the server, for its token |
| Introspection.PostsWaitOutTheBreaker | apps/api/app/security.py:75-95 | No POST starts within 30 s of the latest opening, whatever replies come in meanwhile |
| Introspection.FailureBudget | apps/api/app/security.py:43-95 | With at most n POSTs out at any moment, T seconds without a success hold at most (n + 4) * (floor(T / 30) + 1) failed POSTs, on every interleaving |
| Introspection.SweptCacheIsFresh | apps/api/app/security.py:65-72 | After a store the cache is within 2000 entries or holds none that has expired |
| IntrospectionGate.Gate.AskFor | apps/api/app/security.py:288-312 | The request up to its POST, on the live globals |
| IntrospectionGate.Gate.Replied | apps/api/app/security.py:313-323 | The request from the reply on, on the live globals |
| IntrospectionGate.Gate.Put | apps/api/app/security.py:65-72 | The store, with the loop that drops stale entries |
| IntrospectionGate.Gate.Get | apps/api/app/security.py:54-62 | The lookup that drops a stale entry it meets |
| IntrospectionGate.Gate.CbIsOpen | apps/api/app/security.py:75-82 | The breaker check that closes it after 30 s |
| IntrospectionGate.Gate.CbRecordFailure | apps/api/app/security.py:85-90 | The fifth failure opens the breaker and clears the counter |
| IntrospectionGate.Gate.CbRecordSuccess | apps/api/app/security.py:93-95 | A success clears the counter and leaves the opening |
| KekMigration.MigrationSession.Migrate | scripts/migrate_kms.py:116-190 | At a normal end exactly the rows both providers handled are durable under the target and every other row is untouched; at every crash point each key is its old or its converted value and at most one batch is uncommitted |
| KekMigration.MigrationSession.MigrateRow | scripts/migrate_kms.py:148-179 | One row: convert, count, commit a full batch, or count an error and go on |
| KekMigration.MigrationSession.UpdateRow | scripts/migrate_kms.py:165-174 | The update, and the commit exactly at a full batch; it raises exactly for batch size 0 |
| KekMigration.FinalExact | scripts/migrate_kms.py:148-179 | The table a run leaves, key by key: sealed under the target with the same plaintext if it was under the source and neither call fails, untouched otherwise and in a dry run |
| KekMigration.TallyCounts | scripts/migrate_kms.py:131-133 | The logged counters, and exactly for which runs they add up to the number of rows |
| KekMigration.ZeroBatchCountsTwice | scripts/migrate_kms.py:165-179 | One row and batch size 0: the row is migrated, and counted as updated and as an error |
| KekMigration.SecondRunCounts | scripts/migrate_kms.py:148-179 | A second run after any run (complete, crashed anywhere, with faults): the rows already migrated are the errors it adds, the others are counted as in a first run |
| KekMigration.SecondRunFails | scripts/migrate_kms.py:148-179 | One row migrated, and the same command again: nothing updated, one error, the table as it was |
| KekMigration.MigrationSession.FromCommandLine | scripts/migrate_kms.py:193-205 | Nothing happens when source and target agree; so no run re-encrypts a row under the provider it is already under |
| KekMigration.KeysSurviveCrashes | scripts/migrate_kms.py:148-182 | Whatever a crash leaves, each key still unwraps to the same plaintext under the source or the target |
| KekMigration.RerunsFinish | scripts/migrate_kms.py:148-182 | After any history of runs that crashed anywhere, failed on some rows or were dry, one run without faults ends where a single undisturbed run would have |
| KekMigration.RoundTripExactly | scripts/migrate_kms.py:148-169 | Migrating to the target and back is no change exactly when no key was under the target to begin with |
| StartupRecovery.RecoveryDb.MarkInterruptedRuns | apps/api/app/main.py:138-217 | The routine leaves the recovered tables, column by column, or after a database error what was committed before it; a crash at any moment leaves one of three states |
| StartupRecovery.RecoveryDb.StageInterrupted | apps/api/app/main.py:151-179 | The first transaction's changes, by loops over the selected rows |
| StartupRecovery.RecoveryDb.StageOrphans | apps/api/app/main.py:192-208 | The second transaction's changes |
| StartupRecovery.RunsAfterRecovery | apps/api/app/main.py:152-167 | Column by column: every run left running or waiting without a pool is cancelled now and keeps its pool; every other run is as it was; none is left running or waiting without a pool |
| StartupRecovery.EntriesAfterRecovery | apps/api/app/main.py:169-209 | Column by column: every entry of such a run, and every running entry of a finished one, is cancelled with holder, token and expiry cleared, for the same run; every other entry is as it was; no running entry is left for a finished run |
| StartupRecovery.RecoveryIdempotent | apps/api/app/main.py:138-213 | A second start changes nothing |
| StartupRecovery.RestartAfterCrash | apps/api/app/main.py:181-209 | A restart after a crash between the commits, or before the first, reaches the same statuses and leases |
| StartupRecovery.EveryHistoryRecovers | apps/api/app/main.py:138-217 | However often recovery dies on the way, the first start that gets through reaches the statuses and leases of one undisturbed start, and later starts keep them |
| BodyLimit.ReadersBounded | apps/api/app/main.py:564-570 | For every interleaving: the counter is the number of requests inside the undeclared-length section, never above 20, and their chunks total at most 20 times the largest route limit |
| BodyLimit.ReadersReturn | apps/api/app/main.py:670-687 | The counter is 0 exactly when nobody reads: every exit gives its reader back |
| BodyLimit.BodiesExact | apps/api/app/main.py:618-685 | A cached body is the exact concatenation of its stream and within the limit; a body passed on unread is no JSON; a 413 means too much was declared or sent |
| BodyLimit.ArrivalVerdicts | apps/api/app/main.py:606-670 | For every arrival, each outcome exactly: 400, 413, JSON read, other body read, 503, or passed on unread; with the limit of its route |
| BodyLimit.JsonIsScanned | apps/api/app/main.py:622-646 | On every run, a request that came as JSON is passed on only after the end of its stream, its whole body cached within the limit, and decoded without a NUL |
| BodyLimit.OtherEnds | apps/api/app/main.py:646-687 | A disconnect is a 499, another exception is raised, and no event touches another request |
| BodyLimit.BusyExactlyAtTwenty | apps/api/app/main.py:660-669 | The 503 comes exactly when twenty other requests are inside the section |
| BodyLimit.ReadVerdicts | apps/api/app/main.py:636-685 | A chunk is refused exactly when everything sent exceeds the limit, a JSON body exactly when it holds a NUL |
| BodyLimit.RunKeepsInv | apps/api/app/main.py:597-688 | What all of these rest on, for every run |
| BodyLimit.BodyGate.Arrived | apps/api/app/main.py:606-670 | The checks before the first await, on the live counter |
| BodyLimit.BodyGate.GotChunk | apps/api/app/main.py:675-682 | One chunk: counted first, kept only within the limit |
| BodyLimit.BodyGate.Ended | apps/api/app/main.py:649-687 | The end of the stream: the joined body, and the NUL scan for JSON |
| BodyLimit.BodyGate.Broke | apps/api/app/main.py:683-687 | A disconnect, or any other exception inside the read, on the live counter |
| JsonTree.JsonContainsNul | apps/api/app/main.py:573-586 | The worklist terminates and finds a NUL exactly when the recursive definition has one |
| JsonTree.HasNulIffSomePath | apps/api/app/main.py:573-586 | That definition: some path leads to a string, or to an object with a key, that holds a NUL |
| JsonTree.StripKeepsExactly | apps/api/app/schemas.py:562-572 | Redaction keeps exactly the paths through no storage key, with the redacted value at the end of each |
| JsonTree.StripShape | apps/api/app/schemas.py:562-572 | Leaves are unchanged, lists keep their length, objects their other keys in order |
| JsonTree.StripRedacts | apps/api/app/schemas.py:559-572 | No storage key is left at any depth |
| JsonTree.StripIdempotent | apps/api/app/schemas.py:562-572 | A document is unchanged exactly when it holds no storage key; redacting twice is redacting once |
| EnvFile.RenderParseRoundTrip | scripts/generate_demo_env.py:54-102 | Parsing what was rendered gives the map back, order included, exactly when its keys are distinct and well formed and its values trimmed and single-line |
| EnvFile.ParsedExactly | scripts/generate_demo_env.py:54-69 | For every text: the entries, line by line up to the first wrong one, and what is wrong there, with its line number |
| EnvFile.RenderText | scripts/generate_demo_env.py:95-102 | The rendered file, character for character |
| EnvFile.ParsedRepresentable | scripts/generate_demo_env.py:54-69 | Every map the parser accepts is such a map |
| EnvFile.ParseRenderParse | scripts/generate_demo_env.py:54-102 | Rendering a parsed file and parsing it again reads the same values |
| EnvFile.ParseEnvFile | scripts/generate_demo_env.py:54-69 | The loop over numbered lines computes the parse, with its errors and their line numbers |
| EnvFile.UniversalSameLines | scripts/generate_demo_env.py:56-58 | Newline translation by `read_text` does not change the lines |
| DemoEnv.DemoEnvFile.EnsureDemoEnv | scripts/generate_demo_env.py:105-144 | A normal return leaves a file that parses and validates; when it writes, when it keeps, when it fails; the temporary file is gone; at every crash point the path holds the old file or the complete new one |
| DemoEnv.DemoEnvFile.WriteThrough | scripts/generate_demo_env.py:122-136 | The temporary file, its failures, and the one step that replaces the path |
| DemoEnv.DemoEnvFile.ReadExisting | scripts/generate_demo_env.py:111-112 | An existing file is kept exactly when it parses and validates; otherwise the error says which it does not |
| DemoEnv.FreshUsable | scripts/generate_demo_env.py:31-51 | The generated file parses back to the generated values and is accepted, for every draw of secrets |
| DemoEnv.ComplaintExactly | scripts/generate_demo_env.py:72-93 | Which complaint a refused file meets, in the order they are made |
| DemoEnv.GeneratedFields | scripts/generate_demo_env.py:31-51 | Every value of the generated file |
| DemoEnv.LowerExact | scripts/generate_demo_env.py:76-82 | Lower-casing changes the capitals A to Z and nothing else |
| DemoEnv.AcceptedExactly | scripts/generate_demo_env.py:72-93 | A file is accepted exactly when every required key has a value, it binds to the loopback, disables sign-in, and has no short secret |
| LabelMaps.WorkerLabelsAreNormalized | apps/api/app/config.py:626-641 | Every worker label string parses to canonical labels, and normalizing those changes nothing, entries and order |
| LabelMaps.NormalizeFixpoints | apps/api/app/schemas.py:77-92 | Normalizing leaves exactly the non-empty canonical maps alone |
| LabelMaps.NormalizeIdempotent | apps/api/app/schemas.py:77-92 | Normalizing what was normalized, labels or nothing, changes nothing |
| LabelMaps.NormalizeLastWins | apps/api/app/schemas.py:81-91 | The last item whose trimmed key is k decides k's label; blank keys are dropped |
| LabelMaps.AssignmentExact | apps/api/app/config.py:629-640 | What one part assigns: nothing if blank, "true" to a bare key, otherwise what follows the first '=' to what precedes it |
| LabelMaps.WorkerLabelsParts | apps/api/app/config.py:629 | The parts are what stands between the commas |
| LabelMaps.LabelTextExact | apps/api/app/schemas.py:84-90 | Booleans are spelled in lower case, other values lose the white space around them |
| LabelMaps.WorkerLabelsLastWins | apps/api/app/config.py:629-640 | The last part that assigns k decides k's label |
| LabelMaps.NormalizeLabelMap | apps/api/app/schemas.py:77-92 | The loop computes the normalized map |
| LabelMaps.WorkerLabelMap | apps/api/app/config.py:626-641 | The loop computes the parsed labels |
| Rollout.HaltsExactlyWhen | scripts/evaluate_rollout.py:51-72 | The gate halts exactly when each of the last k windows is well formed and one signal is breached in all of them |
| Rollout.WindowExactly | scripts/evaluate_rollout.py:16-48 | What one window says, threshold by threshold |
| Rollout.EvaluateExactly | scripts/evaluate_rollout.py:51-72 | The answer for every count of windows asked for, zero and negative ones included, and which error comes first |
| Rollout.FirstComplaint | scripts/evaluate_rollout.py:22-37 | A window that is not read names its first comparison that is missing or negative |
| Rollout.OlderWindowsDoNotMatter | scripts/evaluate_rollout.py:53-57 | Windows before the last k have no effect |
| Rollout.LongerIsStricter | scripts/evaluate_rollout.py:55-61 | A halt at k + 1 windows is a halt at k |
| Rollout.WorseStillHalts | scripts/evaluate_rollout.py:12-48 | Raising canary values, churn or downtime, or losing a pass, never turns a halt into a continue |
| Rollout.ComparisonsExact | scripts/evaluate_rollout.py:22-37 | When a window is well formed, and exactly which comparisons it breaches |
| Rollout.BreachedSignals | scripts/evaluate_rollout.py:16-48 | The loop finds the breached signals, or the first malformed one |

## Left out

- Postgres row-level security and the transaction-local setting (`apps/api/app/tenancy.py:203-214`), real SQL, the
  identity map and unit-of-work updates by primary key: the model has the hooked statements, with conditions and
  assigned values as arbitrary functions of the rows they can see. That the hook's criteria reach joins and subqueries
  is SQLAlchemy's promise.
- Isolation.ApplyConfined: a unique index is checked at the end of a statement, not row by row; `org_id` itself as a
  foreign key, and with it deleting an organization, is not modelled.
- Isolation.Noninterference: asks that statements touch no key or unique value another tenant holds, which only
  observation depends on, not modification (`Isolation.RunsKeepOutside`); `Isolation.RevealsForeignClaimsOnly` says
  exactly what touching one shows. Tables that are not on the hook's list count as shared; of these, a root table
  (`users`, `organizations`) refers to nothing, any row may refer to it, and tenants do not delete from it.
- Tenancy.ContextRestored: the context variable of one task; that tasks do not share it is Python's promise.
- Authentication before `resolve_org_for` (sessions, API tokens, client addresses) and its logging context.
- Introspection.AnswersAsReference: cache keys are taken to be as good as tokens (no hash collisions), and a payload is
  its `active` flag and one opaque field; looking up the user afterwards is not modelled.
- IdentityPage.AuthShell.Dispatch: browser storage, query caches and rendering; a page mounted twice in development.
- KekMigration.MigrationSession.Migrate: failures arise in the two provider calls only, not in the database; wrapping
  is a value tagged with its provider.
- StartupRecovery.RecoveryDb.MarkInterruptedRuns: the columns recovery does not touch, and its log lines.
- BodyLimit.BodyGate.Arrived: one request at a time up to its first await, as the event loop runs it; decoding JSON is a
  parameter.
- JsonTree.JsonContainsNul: recursion limits of the JSON decoder.
- EnvFile.RenderParseRoundTrip: text encoding; a file is a string of Unicode characters.
- DemoEnv.DemoEnvFile.EnsureDemoEnv: file modes, directories, path expansion, and a random source (the secrets are
  parameters); lower-casing is ASCII, which decides the same comparisons.
- LabelMaps.NormalizeLabelMap: `str()` of values that are neither booleans nor strings is a parameter.
- Rollout.BreachedSignals: the sorted order of names, dates and stage in the report; numbers are reals, without NaN.
- Run-queue leasing, schedule dispatch and the workflow engine, configuration checks, role tables, CSRF and path gates,
  tracing and logging, and the remaining scripts.
