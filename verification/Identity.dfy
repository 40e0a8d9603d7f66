/** The identity protocol of apps/web/src/App.tsx: identity requests in flight race with sign-in, sign-out and 401
    transitions, guarded by a revision counter and a signed-out flag. */
module Identity {
  import opened Prelude

  datatype User = User(id: string)

  /** `rest` stands for the optional fields that spreading carries along. */
  datatype AuthState = AuthState(authRequired: bool, signedIn: bool, registrationOpen: bool, multiTenancy: bool,
                                 rest: Option<string>, user: Option<User>)

  const NO_AUTH_FALLBACK := AuthState(false, false, false, false, None, None)
  const AUTH_RETRY_DELAYS_MS: seq<nat> := [1000, 2000, 4000, 8000, 16000, 30000, 60000]

  /** A request in flight: a bootstrap or focus call for the identity, the logout call, or the identity call that
      follows it. Each remembers the revision it was begun under. */
  datatype Kind = Bootstrap | Refresh | Logout | AfterLogout

  datatype Request = Request(kind: Kind, revision: nat)

  /** How a request ends. The API client reports a 401 to the handler before it rejects the call. */
  datatype Answer = Identity(state: AuthState) | Unauthorized | NotFound | Failed

  /** Requests and timers are named by the tick at which they were started. */
  datatype App = App(
    auth: Option<AuthState>,
    apiReachable: bool,
    revision: nat,
    signedOut: bool,
    retryCount: nat,
    retryRef: Option<nat>,
    timers: map<nat, nat>,
    requests: map<nat, Request>,
    mounted: bool,
    clock: nat)

  datatype Event =
    | Answered(id: nat, answer: Answer)
    | TimerFires(id: nat)
    | SessionRefused
    | SignIn(user: User)
    | SignOut
    | Focus
    | Unmount

  /** Just mounted: the first bootstrap request is out. */
  const INITIAL := App(None, true, 0, false, 0, None, map[], map[0 := Request(Bootstrap, 0)], true, 1)

  // ---- The handlers ----

  function SignedOutView(auth: Option<AuthState>): Option<AuthState> {
    if auth.None? then None else Some(auth.value.(signedIn := false, user := None))
  }

  function Begin(s: App, kind: Kind, revision: nat): App {
    s.(requests := s.requests[s.clock := Request(kind, revision)])
  }

  function ClearRetry(s: App): App {
    if s.retryRef.None? then s else s.(timers := s.timers - {s.retryRef.value})
  }

  function OnUnauthorized(s: App): App {
    if !s.mounted then s else s.(revision := s.revision + 1, auth := SignedOutView(s.auth))
  }

  function OnSignedIn(s: App, user: User): App {
    if !s.mounted then s
    else
      var auth := if s.auth.None? then AuthState(true, true, false, false, None, Some(user))
                  else s.auth.value.(authRequired := true, signedIn := true, user := Some(user));
      ClearRetry(s).(revision := s.revision + 1, signedOut := false, auth := Some(auth))
  }

  function OnSignOut(s: App): App {
    if !s.mounted then s
    else
      Begin(ClearRetry(s).(signedOut := true, revision := s.revision + 1, auth := SignedOutView(s.auth)),
            Logout, s.revision + 1)
  }

  function OnFocus(s: App): App {
    if !s.mounted || s.signedOut then s else Begin(s, Refresh, s.revision)
  }

  function OnUnmount(s: App): App {
    if !s.mounted then s else ClearRetry(s).(revision := s.revision + 1, mounted := false)
  }

  function OnTimer(s: App, id: nat): App {
    if id !in s.timers then s else Begin(s.(timers := s.timers - {id}), Bootstrap, s.revision)
  }

  function ScheduleRetry(s: App): App {
    var index := if s.retryCount < |AUTH_RETRY_DELAYS_MS| then s.retryCount else |AUTH_RETRY_DELAYS_MS| - 1;
    s.(apiReachable := false, auth := None, retryCount := index + 1, retryRef := Some(s.clock),
       timers := s.timers[s.clock := AUTH_RETRY_DELAYS_MS[index]])
  }

  /** The continuation of a call of each kind, after the client has dealt with a 401. */
  function Continue(s: App, r: Request, answer: Answer): App {
    match r.kind
    case Bootstrap =>
      if r.revision != s.revision || s.signedOut then s
      else if answer.Identity? then s.(retryCount := 0, auth := Some(answer.state), apiReachable := true)
      else if answer.NotFound? then s.(auth := Some(NO_AUTH_FALLBACK), apiReachable := true)
      else ScheduleRetry(s)
    case Refresh =>
      if answer.Identity? && r.revision == s.revision && !s.signedOut then s.(auth := Some(answer.state)) else s
    case Logout => Begin(s, AfterLogout, r.revision)
    case AfterLogout =>
      if answer.Identity? && r.revision == s.revision
      then s.(auth := Some(answer.state.(signedIn := false, user := None))) else s
  }

  function OnAnswer(s: App, id: nat, answer: Answer): App {
    if id !in s.requests then s
    else
      var s1 := s.(requests := s.requests - {id});
      Continue(if answer.Unauthorized? then OnUnauthorized(s1) else s1, s.requests[id], answer)
  }

  function Handle(s: App, e: Event): App {
    match e
    case Answered(id, answer) => OnAnswer(s, id, answer)
    case TimerFires(id) => OnTimer(s, id)
    case SessionRefused => OnUnauthorized(s)
    case SignIn(user) => OnSignedIn(s, user)
    case SignOut => OnSignOut(s)
    case Focus => OnFocus(s)
    case Unmount => OnUnmount(s)
  }

  function Step(s: App, e: Event): App {
    Handle(s, e).(clock := s.clock + 1)
  }

  function Run(s: App, events: seq<Event>): App {
    if events == [] then s else Step(Run(s, events[..|events| - 1]), events[|events| - 1])
  }

  /** The state after the first `k` events of a page's life. */
  function StateAt(events: seq<Event>, k: nat): App
    requires k <= |events|
  {
    Run(INITIAL, events[..k])
  }

  lemma StateAtNext(events: seq<Event>, k: nat)
    requires k < |events|
    ensures StateAt(events, k + 1) == Step(StateAt(events, k), events[k])
  {
    assert events[..k + 1][..k] == events[..k];
  }

  // ---- What every step keeps ----

  /** A request whose answer would still be looked at. */
  predicate Live(s: App, id: nat) {
    id in s.requests && s.requests[id].revision == s.revision
  }

  predicate LiveProbe(s: App, id: nat) {
    Live(s, id) && s.requests[id].kind.Bootstrap?
  }

  predicate NotSignedIn(s: App) {
    s.auth.None? || (!s.auth.value.signedIn && s.auth.value.user.None?)
  }

  ghost predicate Bounded(s: App) {
    && s.retryCount <= |AUTH_RETRY_DELAYS_MS|
    && (forall id :: id in s.requests ==> id < s.clock && s.requests[id].revision <= s.revision)
    && (forall id :: id in s.timers ==> id < s.clock && s.retryRef == Some(id) && 1 <= s.retryCount
                                        && s.timers[id] == AUTH_RETRY_DELAYS_MS[s.retryCount - 1])
  }

  /** Signed out, or gone: nothing retries, no identity request counts, and nobody is signed in. */
  ghost predicate Quiet(s: App) {
    && (s.signedOut ==> NotSignedIn(s))
    && (s.signedOut || !s.mounted ==> s.timers == map[])
    && (s.signedOut ==> forall id :: Live(s, id) ==> s.requests[id].kind in {Logout, AfterLogout})
    && (!s.mounted ==> forall id :: id in s.requests ==> s.requests[id].revision < s.revision)
  }

  /** One probe at a time: a timer or a request, never both, never two. */
  ghost predicate OneProbe(s: App) {
    && (s.timers != map[] ==> forall id :: !LiveProbe(s, id))
    && (forall a, b :: LiveProbe(s, a) && LiveProbe(s, b) ==> a == b)
  }

  ghost predicate Inv(s: App) {
    Bounded(s) && Quiet(s) && OneProbe(s)
  }

  /** Continuing a call moves no counter and begins at most the identity call after a logout. */
  lemma ContinueShape(s: App, r: Request, answer: Answer)
    ensures var c := Continue(s, r, answer);
      && c.revision == s.revision && c.signedOut == s.signedOut && c.mounted == s.mounted && c.clock == s.clock
      && c.requests == if r.kind.Logout? then s.requests[s.clock := Request(AfterLogout, r.revision)] else s.requests
  {
  }

  /** A request that is out after a step either was begun by it or was out, unchanged, before. */
  lemma RequestsBegunOnce(s: App, e: Event, id: nat)
    requires id in Step(s, e).requests && id != s.clock
    ensures id in s.requests && s.requests[id] == Step(s, e).requests[id]
    ensures e.Answered? ==> id != e.id
  {
    if e.Answered? && e.id in s.requests {
      var s1 := s.(requests := s.requests - {e.id});
      ContinueShape(if e.answer.Unauthorized? then OnUnauthorized(s1) else s1, s.requests[e.id], e.answer);
    }
  }

  lemma AnswerBounded(s: App, id: nat, answer: Answer)
    requires Inv(s) && id in s.requests
    ensures Bounded(Step(s, Answered(id, answer)))
  {
    var r, s1 := s.requests[id], s.(requests := s.requests - {id});
    var s2 := if answer.Unauthorized? then OnUnauthorized(s1) else s1;
    ContinueShape(s2, r, answer);
    assert LiveProbe(s, id) ==> s.timers == map[];
    assert s2.timers == s.timers && s2.retryRef == s.retryRef && s2.retryCount == s.retryCount;
    if r.kind.Bootstrap? && r.revision == s2.revision && !s2.signedOut {
      assert LiveProbe(s, id);
    }
  }

  lemma TimerBounded(s: App, id: nat)
    requires Inv(s)
    ensures Bounded(Step(s, TimerFires(id)))
  {
  }

  lemma UserBounded(s: App, e: Event)
    requires Inv(s) && (e.SignIn? || e.SignOut?)
    ensures Bounded(Step(s, e))
  {
  }

  lemma PageBounded(s: App, e: Event)
    requires Inv(s) && (e.SessionRefused? || e.Focus? || e.Unmount?)
    ensures Bounded(Step(s, e))
  {
  }

  lemma StepBounded(s: App, e: Event)
    requires Inv(s)
    ensures Bounded(Step(s, e))
  {
    match e
    case Answered(id, answer) =>
      if id in s.requests {
        AnswerBounded(s, id, answer);
      }
    case TimerFires(id) => TimerBounded(s, id);
    case SignIn(_) => UserBounded(s, e);
    case SignOut => UserBounded(s, e);
    case _ => PageBounded(s, e);
  }

  lemma AnswerQuiet(s: App, id: nat, answer: Answer)
    requires Inv(s) && id in s.requests
    ensures Quiet(Step(s, Answered(id, answer)))
  {
    var r, s1 := s.requests[id], s.(requests := s.requests - {id});
    var s2 := if answer.Unauthorized? then OnUnauthorized(s1) else s1;
    ContinueShape(s2, r, answer);
    assert Live(s, id) <==> r.revision == s.revision;
    match r.kind
    case Bootstrap =>
    case Refresh =>
    case Logout =>
    case AfterLogout =>
  }

  lemma StepQuiet(s: App, e: Event)
    requires Inv(s)
    ensures Quiet(Step(s, e))
  {
    match e
    case Answered(id, answer) =>
      if id in s.requests {
        AnswerQuiet(s, id, answer);
      }
    case _ =>
  }

  lemma AnswerOneProbe(s: App, id: nat, answer: Answer)
    requires Inv(s) && id in s.requests
    ensures OneProbe(Step(s, Answered(id, answer)))
  {
    var s' := Step(s, Answered(id, answer));
    var s1 := s.(requests := s.requests - {id});
    ContinueShape(if answer.Unauthorized? then OnUnauthorized(s1) else s1, s.requests[id], answer);
    forall a | LiveProbe(s', a) ensures LiveProbe(s, a) && a != id {
    }
    assert s'.timers != map[] ==> s.timers != map[] || LiveProbe(s, id);
  }

  lemma StepOneProbe(s: App, e: Event)
    requires Inv(s)
    ensures OneProbe(Step(s, e))
  {
    var s' := Step(s, e);
    match e
    case Answered(id, answer) =>
      if id in s.requests {
        AnswerOneProbe(s, id, answer);
      } else {
        forall a | LiveProbe(s', a) ensures LiveProbe(s, a) {
        }
      }
    case TimerFires(id) =>
      assert id in s.timers ==> s'.timers == map[];
      assert forall a :: LiveProbe(s', a) ==> LiveProbe(s, a) || (a == s.clock && id in s.timers);
    case _ =>
      assert forall a :: LiveProbe(s', a) ==> LiveProbe(s, a);
  }

  lemma StepKeepsInv(s: App, e: Event)
    requires Inv(s)
    ensures Inv(Step(s, e))
  {
    StepBounded(s, e);
    StepQuiet(s, e);
    StepOneProbe(s, e);
  }

  lemma {:induction false} RunKeepsInv(events: seq<Event>)
    ensures Inv(Run(INITIAL, events))
    decreases |events|
  {
    if events != [] {
      RunKeepsInv(events[..|events| - 1]);
      StepKeepsInv(Run(INITIAL, events[..|events| - 1]), events[|events| - 1]);
    }
  }

  // ---- A sign-out is final until the next sign-in ----

  lemma SignedOutPersists(s: App, e: Event)
    requires (s.signedOut && !e.SignIn?) || (e.SignOut? && s.mounted)
    ensures Step(s, e).signedOut
  {
  }

  lemma {:induction false} SignedOutUntilSignIn(events: seq<Event>, i: nat, j: nat)
    requires i < j <= |events| && events[i] == SignOut && StateAt(events, i).mounted
    requires forall k :: i < k < j ==> !events[k].SignIn?
    ensures StateAt(events, j).signedOut
    decreases j
  {
    var last := j - 1;
    if i < last {
      SignedOutUntilSignIn(events, i, last);
    }
    StateAtNext(events, last);
    SignedOutPersists(StateAt(events, last), events[last]);
  }

  /** From a sign-out up to the next sign-in, whatever answers, timers, 401s and focus events come in whatever order,
      the page is never signed in. */
  lemma SignOutHolds(events: seq<Event>, i: nat, j: nat)
    requires i < j <= |events| && events[i] == SignOut && StateAt(events, i).mounted
    requires forall k :: i < k < j ==> !events[k].SignIn?
    ensures StateAt(events, j).signedOut && NotSignedIn(StateAt(events, j))
  {
    SignedOutUntilSignIn(events, i, j);
    RunKeepsInv(events[..j]);
  }

  /** Nobody is signed in, and the rest of the identity is kept. */
  predicate SignedOutOf(a: AuthState, auth: Option<AuthState>) {
    auth.Some? && !auth.value.signedIn && auth.value.user.None?
    && auth.value.authRequired == a.authRequired && auth.value.registrationOpen == a.registrationOpen
    && auth.value.multiTenancy == a.multiTenancy && auth.value.rest == a.rest
  }

  /** A sign-out, or a 401 on any call or outside them, takes the user away and nothing else. */
  lemma TakesOnlyTheUser(s: App, e: Event, a: AuthState)
    requires s.mounted && s.auth == Some(a)
    requires e.SignOut? || e.SessionRefused? || (e.Answered? && e.id in s.requests && e.answer.Unauthorized?)
    requires e.Answered? ==> Inv(s)
    ensures SignedOutOf(a, Step(s, e).auth)
  {
    if e.Answered? {
      var r, s1 := s.requests[e.id], OnUnauthorized(s.(requests := s.requests - {e.id}));
      assert r.revision <= s.revision && s1.revision == s.revision + 1;
      assert Continue(s1, r, e.answer).auth == s1.auth;
    }
  }

  /** A sign-in puts the user in, asks for sign-in from now on, and keeps the rest; a 404 for a live bootstrap call
      stands for a server without sign-in. */
  lemma SignInShows(s: App, user: User)
    requires s.mounted
    ensures var auth := Step(s, SignIn(user)).auth;
      && auth.Some? && auth.value.authRequired && auth.value.signedIn && auth.value.user == Some(user)
      && (s.auth.Some? ==> auth.value == AuthState(true, true, s.auth.value.registrationOpen,
                                                   s.auth.value.multiTenancy, s.auth.value.rest, Some(user)))
      && (s.auth.None? ==> auth.value == AuthState(true, true, false, false, None, Some(user)))
  {
  }

  lemma NotFoundShows(s: App, id: nat)
    requires Inv(s) && LiveProbe(s, id)
    ensures Step(s, Answered(id, NotFound)).auth == Some(AuthState(false, false, false, false, None, None))
    ensures Step(s, Answered(id, NotFound)).apiReachable
  {
  }

  /** One step after a sign-out, before the next sign-in or applied identity. */
  lemma SignedOutStep(s: App, e: Event, a: AuthState)
    requires Inv(s) && s.signedOut && SignedOutOf(a, s.auth) && !e.SignIn? && !Applies(s, e)
    ensures Step(s, e).signedOut && SignedOutOf(a, Step(s, e).auth)
  {
    if e.Answered? && e.id in s.requests {
      var r, s1 := s.requests[e.id], s.(requests := s.requests - {e.id});
      assert r.kind.Bootstrap? || r.kind.Refresh? ==> r.revision != s.revision;
      ContinueShape(if e.answer.Unauthorized? then OnUnauthorized(s1) else s1, r, e.answer);
      assert e.answer.Unauthorized? ==> r.revision <= s.revision;
    }
  }

  lemma SignOutStep(events: seq<Event>, i: nat, a: AuthState)
    requires i < |events| && events[i] == SignOut && StateAt(events, i).mounted && StateAt(events, i).auth == Some(a)
    ensures StateAt(events, i + 1).signedOut && SignedOutOf(a, StateAt(events, i + 1).auth)
  {
    StateAtNext(events, i);
    TakesOnlyTheUser(StateAt(events, i), SignOut, a);
  }

  lemma ScreenStep(events: seq<Event>, k: nat, a: AuthState)
    requires k < |events| && StateAt(events, k).signedOut && SignedOutOf(a, StateAt(events, k).auth)
    requires !events[k].SignIn? && !Applies(StateAt(events, k), events[k])
    ensures StateAt(events, k + 1).signedOut && SignedOutOf(a, StateAt(events, k + 1).auth)
  {
    StateAtNext(events, k);
    RunKeepsInv(events[..k]);
    SignedOutStep(StateAt(events, k), events[k], a);
  }

  /** From a sign-out of a page that shows an identity, up to the next sign-in or applied identity, whatever fails in
      whatever order, the page keeps its sign-in screen: everything it knew but the user. */
  lemma {:induction false} SignInScreenStays(events: seq<Event>, i: nat, j: nat, a: AuthState)
    requires i < j <= |events| && events[i] == SignOut
    requires StateAt(events, i).mounted && StateAt(events, i).auth == Some(a)
    requires forall k :: i < k < j ==> !events[k].SignIn? && !Applies(StateAt(events, k), events[k])
    ensures StateAt(events, j).signedOut && SignedOutOf(a, StateAt(events, j).auth)
    decreases j
  {
    var last := j - 1;
    if i < last {
      SignInScreenStays(events, i, last, a);
      ScreenStep(events, last, a);
    } else {
      SignOutStep(events, i, a);
    }
  }

  // ---- No identity fetched before a transition lands after it ----

  /** The event is a login, a logout, a 401 or the end of the page: identity answers begun before it are stale. */
  predicate Transition(s: App, e: Event) {
    s.mounted && match e
    case SignIn(_) => true
    case SignOut => true
    case SessionRefused => true
    case Unmount => true
    case Answered(id, answer) => id in s.requests && answer.Unauthorized?
    case _ => false
  }

  lemma TransitionsMoveTheRevision(s: App, e: Event)
    ensures Step(s, e).revision == s.revision + if Transition(s, e) then 1 else 0
  {
  }

  /** The answer's identity becomes the page's identity. */
  predicate Applies(s: App, e: Event) {
    e.Answered? && e.answer.Identity? && Live(s, e.id) && !s.requests[e.id].kind.Logout?
  }

  /** Nothing else writes an identity: the auth state changes only at a transition, when an identity is applied, or
      when a live bootstrap call fails. */
  lemma OnlyThenAuthChanges(s: App, e: Event)
    requires Inv(s) && Step(s, e).auth != s.auth
    ensures Transition(s, e) || Applies(s, e) || (e.Answered? && LiveProbe(s, e.id))
    ensures Applies(s, e) && s.requests[e.id].kind.AfterLogout?
            ==> Step(s, e).auth == Some(e.answer.state.(signedIn := false, user := None))
    ensures Applies(s, e) && !s.requests[e.id].kind.AfterLogout? ==> Step(s, e).auth == Some(e.answer.state)
  {
  }

  lemma RequestsAreTicks(events: seq<Event>, j: nat)
    requires j <= |events|
    ensures StateAt(events, j).clock == j + 1
    decreases j
  {
    if j > 0 {
      RequestsAreTicks(events, j - 1);
      StateAtNext(events, j - 1);
    } else {
      assert events[..0] == [];
    }
  }

  /** A request in flight was in flight, unchanged, ever since it was begun. */
  lemma {:induction false} InFlightSince(events: seq<Event>, id: nat, k: nat, j: nat)
    requires k <= j <= |events| && id <= k && id in StateAt(events, j).requests
    ensures id in StateAt(events, k).requests && StateAt(events, k).requests[id] == StateAt(events, j).requests[id]
    decreases j
  {
    if k < j {
      StateAtNext(events, j - 1);
      RequestsAreTicks(events, j - 1);
      RequestsBegunOnce(StateAt(events, j - 1), events[j - 1], id);
      InFlightSince(events, id, k, j - 1);
    }
  }

  lemma {:induction false} RevisionNeverFalls(events: seq<Event>, k: nat, j: nat)
    requires k <= j <= |events|
    ensures StateAt(events, k).revision <= StateAt(events, j).revision
    decreases j
  {
    if k < j {
      StateAtNext(events, j - 1);
      TransitionsMoveTheRevision(StateAt(events, j - 1), events[j - 1]);
      RevisionNeverFalls(events, k, j - 1);
    }
  }

  /** Every applied identity belongs to a request begun after the latest transition. Request `id` was begun by event
      `id - 1` (0 at mount), so the events from `id` up to the answer are those that happened while it was out. */
  lemma AppliedIdentityIsFresh(events: seq<Event>, j: nat)
    requires j < |events| && Applies(StateAt(events, j), events[j])
    ensures events[j].id <= j
    ensures forall k :: events[j].id <= k < j ==> !Transition(StateAt(events, k), events[k])
  {
    var id, s := events[j].id, StateAt(events, j);
    RunKeepsInv(events[..j]);
    RequestsAreTicks(events, j);
    forall k | id <= k < j && Transition(StateAt(events, k), events[k]) ensures false {
      InFlightSince(events, id, k, j);
      RunKeepsInv(events[..k]);
      StateAtNext(events, k);
      TransitionsMoveTheRevision(StateAt(events, k), events[k]);
      RevisionNeverFalls(events, k + 1, j);
    }
  }

  // ---- Failing closed, and trying again ----

  /** The page shows itself without asking anyone to sign in. */
  predicate Open(s: App) {
    s.auth.Some? && !s.auth.value.authRequired
  }

  /** A page opens up only on the server's word, or on a 404 for a live bootstrap call: no other failure, in whatever
      order it arrives, turns sign-in off. */
  lemma OnlyA404OpensUp(s: App, e: Event)
    requires !Open(s) && Open(Step(s, e))
    ensures Applies(s, e) || (e.Answered? && LiveProbe(s, e.id) && e.answer.NotFound?)
  {
    if e.Answered? && e.id in s.requests {
      var s1 := s.(requests := s.requests - {e.id});
      ContinueShape(if e.answer.Unauthorized? then OnUnauthorized(s1) else s1, s.requests[e.id], e.answer);
    }
  }

  /** An outage of the server: every bootstrap call fails, and every timer runs out. */
  function Outage(rounds: nat): seq<Event> {
    if rounds == 0 then []
    else Outage(rounds - 1) + [Answered(2 * (rounds - 1), Failed), TimerFires(2 * (rounds - 1) + 1)]
  }

  /** The page after so many rounds of an outage: the next bootstrap call is out. */
  function OutagePage(rounds: nat): App {
    App(None, rounds == 0, 0, false,
        if rounds < |AUTH_RETRY_DELAYS_MS| then rounds else |AUTH_RETRY_DELAYS_MS|,
        if rounds == 0 then None else Some(2 * rounds - 1), map[],
        map[2 * rounds := Request(Bootstrap, 0)], true, 2 * rounds + 1)
  }

  lemma FailedRound(rounds: nat)
    ensures var s1 := Step(OutagePage(rounds), Answered(2 * rounds, Failed));
      && s1.timers == map[2 * rounds + 1 := AUTH_RETRY_DELAYS_MS[if rounds < 6 then rounds else 6]]
      && Step(s1, TimerFires(2 * rounds + 1)) == OutagePage(rounds + 1)
  {
    var s, id := OutagePage(rounds), 2 * rounds;
    var s1 := Step(s, Answered(id, Failed));
    assert s.requests - {id} == map[];
    assert s1.timers == map[id + 1 := AUTH_RETRY_DELAYS_MS[if rounds < 6 then rounds else 6]];
    assert s1.timers - {id + 1} == map[];
  }

  lemma RunSnoc(events: seq<Event>, e: Event)
    ensures Run(INITIAL, events + [e]) == Step(Run(INITIAL, events), e)
  {
    assert (events + [e])[..|events|] == events;
  }

  lemma RunTwoMore(events: seq<Event>, e: Event, e': Event)
    ensures Run(INITIAL, events + [e, e']) == Step(Step(Run(INITIAL, events), e), e')
  {
    RunSnoc(events, e);
    RunSnoc(events + [e], e');
    assert events + [e, e'] == events + [e] + [e'];
  }

  lemma OutageStarts()
    ensures Run(INITIAL, Outage(0)) == OutagePage(0)
  {
  }

  lemma OutageStep(rounds: nat)
    requires Run(INITIAL, Outage(rounds)) == OutagePage(rounds)
    ensures Run(INITIAL, Outage(rounds + 1)) == OutagePage(rounds + 1)
  {
    var failed, fires := Answered(2 * rounds, Failed), TimerFires(2 * rounds + 1);
    assert Outage(rounds + 1) == Outage(rounds) + [failed, fires];
    RunTwoMore(Outage(rounds), failed, fires);
    FailedRound(rounds);
  }

  lemma {:induction false} OutageGoesOn(rounds: nat)
    ensures Run(INITIAL, Outage(rounds)) == OutagePage(rounds)
  {
    if rounds == 0 {
      OutageStarts();
    } else {
      OutageGoesOn(rounds - 1);
      OutageStep(rounds - 1);
    }
  }

  /** One second, doubled each round up to 16, then 30, then a minute. */
  function Delay(rounds: nat): nat {
    if rounds == 0 then 1000 else if rounds < 5 then 2 * Delay(rounds - 1) else if rounds == 5 then 30000 else 60000
  }

  /** The retries back off, for as long as the outage lasts: the next failure waits the delay of its round. */
  lemma BackoffSchedule(rounds: nat)
    ensures Step(Run(INITIAL, Outage(rounds)), Answered(2 * rounds, Failed)).timers ==
            map[2 * rounds + 1 := Delay(rounds)]
  {
    OutageGoesOn(rounds);
    FailedRound(rounds);
  }
}
