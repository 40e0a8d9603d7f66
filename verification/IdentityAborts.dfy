/** What the revision counter buys: the protocol of `Identity` behaves like a simpler one with no counter at all, in
    which every transition aborts all requests in flight. And what it costs: the retry chain of the bootstrap. */
module IdentityAborts {
  import opened Prelude
  import opened Identity

  /** The page without revisions: `live` are the requests not yet aborted. */
  datatype Ideal = Ideal(
    auth: Option<AuthState>,
    apiReachable: bool,
    signedOut: bool,
    retryCount: nat,
    retry: Option<(nat, nat)>,
    live: map<nat, Kind>,
    mounted: bool,
    clock: nat)

  function AbortAll(i: Ideal): Ideal {
    i.(live := map[])
  }

  function IdealBegin(i: Ideal, kind: Kind): Ideal {
    i.(live := i.live[i.clock := kind])
  }

  /** What is left of the identity when nobody is signed in any more: everything but the user. */
  function SignInScreen(auth: Option<AuthState>): Option<AuthState> {
    match auth
    case None => None
    case Some(a) => Some(AuthState(a.authRequired, false, a.registrationOpen, a.multiTenancy, a.rest, None))
  }

  function IdealRefused(i: Ideal): Ideal {
    if !i.mounted then i else AbortAll(i).(auth := SignInScreen(i.auth))
  }

  function IdealContinue(i: Ideal, kind: Kind, answer: Answer): Ideal {
    match kind
    case Bootstrap =>
      if answer.Identity? then i.(retryCount := 0, auth := Some(answer.state), apiReachable := true)
      else if answer.NotFound?
      then i.(auth := Some(AuthState(false, false, false, false, None, None)), apiReachable := true)
      else
        var index := if i.retryCount < |AUTH_RETRY_DELAYS_MS| then i.retryCount else |AUTH_RETRY_DELAYS_MS| - 1;
        i.(apiReachable := false, auth := None, retryCount := index + 1,
           retry := Some((i.clock, AUTH_RETRY_DELAYS_MS[index])))
    case Refresh => if answer.Identity? then i.(auth := Some(answer.state)) else i
    case Logout => IdealBegin(i, AfterLogout)
    case AfterLogout =>
      if answer.Identity? then i.(auth := Some(answer.state.(signedIn := false, user := None))) else i
  }

  function IdealHandle(i: Ideal, e: Event): Ideal {
    match e
    case Answered(id, answer) =>
      if id !in i.live then i
      else if answer.Unauthorized? then IdealRefused(i)
      else IdealContinue(i.(live := i.live - {id}), i.live[id], answer)
    case TimerFires(id) =>
      if i.retry.Some? && i.retry.value.0 == id then IdealBegin(i.(retry := None), Bootstrap) else i
    case SessionRefused => IdealRefused(i)
    case SignIn(user) =>
      if !i.mounted then i
      else
        var auth := if i.auth.None? then AuthState(true, true, false, false, None, Some(user))
                    else i.auth.value.(authRequired := true, signedIn := true, user := Some(user));
        AbortAll(i).(retry := None, signedOut := false, auth := Some(auth))
    case SignOut =>
      if !i.mounted then i
      else IdealBegin(AbortAll(i).(retry := None, signedOut := true, auth := SignInScreen(i.auth)), Logout)
    case Focus => if !i.mounted || i.signedOut then i else IdealBegin(i, Refresh)
    case Unmount => if !i.mounted then i else AbortAll(i).(retry := None, mounted := false)
  }

  function IdealStep(i: Ideal, e: Event): Ideal {
    IdealHandle(i, e).(clock := i.clock + 1)
  }

  function IdealRun(i: Ideal, events: seq<Event>): Ideal {
    if events == [] then i else IdealStep(IdealRun(i, events[..|events| - 1]), events[|events| - 1])
  }

  /** Forget the revisions and every request of an earlier one. */
  function LiveRequests(s: App): map<nat, Kind> {
    map id | id in s.requests && s.requests[id].revision == s.revision :: s.requests[id].kind
  }

  function PendingRetry(s: App): Option<(nat, nat)> {
    if s.retryRef.Some? && s.retryRef.value in s.timers then Some((s.retryRef.value, s.timers[s.retryRef.value]))
    else None
  }

  function Erase(s: App): Ideal {
    Ideal(s.auth, s.apiReachable, s.signedOut, s.retryCount, PendingRetry(s), LiveRequests(s), s.mounted, s.clock)
  }

  /** A stale request that is refused is a refusal of the session, and nothing else. */
  function Seen(s: App, e: Event): Event {
    if e.Answered? && e.answer.Unauthorized? && e.id in s.requests && !Live(s, e.id) then SessionRefused else e
  }

  lemma TransitionAborts(s: App, s': App)
    requires Inv(s) && s'.revision == s.revision + 1
    requires forall id :: id in s'.requests ==> id in s.requests && s'.requests[id] == s.requests[id]
    ensures LiveRequests(s') == map[]
  {
  }

  lemma BootstrapRefines(s: App, answer: Answer)
    requires !answer.Unauthorized? && !s.signedOut && s.timers == map[]
    ensures Erase(Continue(s, Request(Bootstrap, s.revision), answer)) == IdealContinue(Erase(s), Bootstrap, answer)
  {
    assert LiveRequests(Continue(s, Request(Bootstrap, s.revision), answer)) == LiveRequests(s);
  }

  lemma ContinueRefines(s: App, r: Request, answer: Answer)
    requires r.revision == s.revision && !answer.Unauthorized?
    requires r.kind.Bootstrap? ==> !s.signedOut && s.timers == map[]
    requires r.kind.Refresh? ==> !s.signedOut
    ensures Erase(Continue(s, r, answer)) == IdealContinue(Erase(s), r.kind, answer)
  {
    match r.kind
    case Bootstrap => BootstrapRefines(s, answer);
    case Refresh => assert LiveRequests(Continue(s, r, answer)) == LiveRequests(s);
    case Logout => assert LiveRequests(Begin(s, AfterLogout, r.revision)) == LiveRequests(s)[s.clock := AfterLogout];
    case AfterLogout => assert LiveRequests(Continue(s, r, answer)) == LiveRequests(s);
  }

  lemma StaleAnswerErased(s: App, r: Request, answer: Answer)
    requires r.revision != s.revision && s.clock !in s.requests
    ensures Erase(Continue(s, r, answer)) == Erase(s)
  {
    assert LiveRequests(Continue(s, r, answer)) == LiveRequests(s);
  }

  lemma AnswerRefines(s: App, id: nat, answer: Answer)
    requires Inv(s) && id in s.requests && !answer.Unauthorized?
    ensures Erase(Step(s, Answered(id, answer))) == IdealStep(Erase(s), Answered(id, answer))
  {
    var r, s1 := s.requests[id], s.(requests := s.requests - {id});
    if Live(s, id) {
      assert LiveProbe(s, id) ==> s.timers == map[];
      assert LiveRequests(s1) == LiveRequests(s) - {id};
      ContinueRefines(s1, r, answer);
    } else {
      assert LiveRequests(s1) == LiveRequests(s);
      StaleAnswerErased(s1, r, answer);
    }
  }

  lemma RefusalRefines(s: App, id: nat)
    requires Inv(s) && id in s.requests
    ensures Erase(Step(s, Answered(id, Unauthorized))) ==
            IdealStep(Erase(s), if Live(s, id) then Answered(id, Unauthorized) else SessionRefused)
  {
    var r, s1 := s.requests[id], s.(requests := s.requests - {id});
    var s2 := OnUnauthorized(s1);
    ContinueShape(s2, r, Unauthorized);
    if s.mounted {
      TransitionAborts(s, s2);
      assert LiveRequests(Step(s, Answered(id, Unauthorized))) == map[];
    } else {
      assert LiveRequests(Step(s, Answered(id, Unauthorized))) == LiveRequests(s);
    }
  }

  lemma TimerRefines(s: App, id: nat)
    requires Inv(s)
    ensures Erase(Step(s, TimerFires(id))) == IdealStep(Erase(s), TimerFires(id))
  {
    if id in s.timers {
      var s' := Step(s, TimerFires(id));
      assert s'.timers == map[];
      assert LiveRequests(s') == LiveRequests(s)[s.clock := Bootstrap];
    }
  }

  lemma SignInRefines(s: App, user: User)
    requires Inv(s)
    ensures Erase(Step(s, SignIn(user))) == IdealStep(Erase(s), SignIn(user))
  {
    if s.mounted {
      TransitionAborts(s, Step(s, SignIn(user)));
    }
  }

  lemma SignOutRefines(s: App)
    requires Inv(s)
    ensures Erase(Step(s, SignOut)) == IdealStep(Erase(s), SignOut)
  {
    if s.mounted {
      var s' := Step(s, SignOut);
      TransitionAborts(s, s'.(requests := s.requests));
      assert LiveRequests(s') == map[s.clock := Logout];
    }
  }

  /** One step of the page is one step of the page without revisions. */
  lemma StepRefines(s: App, e: Event)
    requires Inv(s)
    ensures Erase(Step(s, e)) == IdealStep(Erase(s), Seen(s, e))
  {
    match e
    case Answered(id, answer) =>
      if id in s.requests {
        if answer.Unauthorized? {
          RefusalRefines(s, id);
        } else {
          AnswerRefines(s, id, answer);
        }
      }
    case TimerFires(id) => TimerRefines(s, id);
    case SignIn(user) => SignInRefines(s, user);
    case SignOut => SignOutRefines(s);
    case SessionRefused =>
      if s.mounted {
        TransitionAborts(s, Step(s, e));
      }
    case Focus =>
      if s.mounted && !s.signedOut {
        assert LiveRequests(Step(s, e)) == LiveRequests(s)[s.clock := Refresh];
      }
    case Unmount =>
      if s.mounted {
        TransitionAborts(s, Step(s, e));
      }
  }

  function SeenAll(events: seq<Event>): seq<Event> {
    if events == [] then []
    else SeenAll(events[..|events| - 1]) + [Seen(Run(INITIAL, events[..|events| - 1]), events[|events| - 1])]
  }

  /** For every interleaving: the page with its revision counter is, at every moment, the page on which each login,
      logout, 401 and unmount aborts whatever is in flight. */
  lemma {:induction false} RevisionsAbort(events: seq<Event>)
    ensures Erase(Run(INITIAL, events)) == IdealRun(Erase(INITIAL), SeenAll(events))
    decreases |events|
  {
    if events != [] {
      var before := events[..|events| - 1];
      RevisionsAbort(before);
      RunKeepsInv(before);
      StepRefines(Run(INITIAL, before), events[|events| - 1]);
      assert SeenAll(events)[..|SeenAll(events)| - 1] == SeenAll(before);
    }
  }

  // ---- Where a waiting page stops asking ----

  /** Something will still ask the server who is signed in, and its answer would be looked at: a retry timer, or a call
      in flight under the current revision (the end of a logout asks by itself). */
  predicate Asking(s: App) {
    s.timers != map[] || exists id :: id in s.requests && Live(s, id)
  }

  /** The page is waiting for its first identity, and nothing will fetch it. */
  predicate Stranded(s: App) {
    s.mounted && s.auth.None? && !Asking(s)
  }

  /** No retry follows this failure: only the bootstrap's own calls are retried, and the call after a logout is asked
      for by the logout's end, however that ends. */
  predicate LastHope(s: App, id: nat, answer: Answer) {
    && Live(s, id) && !answer.Identity? && s.requests[id].kind in {Refresh, AfterLogout}
    && forall a :: a in s.requests && Live(s, a) ==> a == id
  }

  lemma StillAsking(s: App, id: nat)
    requires Live(s, id)
    ensures Asking(s)
  {
  }

  lemma NobodyAsks(s: App)
    requires s.timers == map[] && forall id :: id in s.requests ==> s.requests[id].revision != s.revision
    ensures !Asking(s)
  {
  }

  /** An answer other than a 401. */
  lemma StrandedByAnswer(s: App, id: nat, answer: Answer)
    requires Inv(s) && s.mounted && s.auth.None? && Asking(s) && id in s.requests && !answer.Unauthorized?
    ensures Stranded(Step(s, Answered(id, answer))) <==> s.timers == map[] && LastHope(s, id, answer)
  {
    var s' := Step(s, Answered(id, answer));
    var s1 := s.(requests := s.requests - {id});
    ContinueShape(s1, s.requests[id], answer);
    if a :| a in s.requests && Live(s, a) && a != id {
      StillAsking(s', a);
    } else if Live(s, id) {
      match s.requests[id].kind
      case Bootstrap =>
        assert LiveProbe(s, id) && (answer.Failed? ==> s.clock in s'.timers);
      case Logout => StillAsking(s', s.clock);
      case _ =>
        assert s'.timers == s.timers;
    }
  }

  /** A 401, on any call or outside them: every call in flight turns stale. */
  lemma StrandedByRefusal(s: App, e: Event)
    requires Inv(s) && s.mounted && s.auth.None?
    requires e.SessionRefused? || (e.Answered? && e.id in s.requests && e.answer.Unauthorized?)
    ensures Stranded(Step(s, e)) <==> s.timers == map[]
  {
    var s' := Step(s, e);
    if e.Answered? {
      ContinueShape(OnUnauthorized(s.(requests := s.requests - {e.id})), s.requests[e.id], e.answer);
    }
    assert s'.timers == s.timers && s'.revision == s.revision + 1;
    if s.timers == map[] {
      NobodyAsks(s');
    }
  }

  /** Every failed bootstrap but a 404 is meant to be retried. A step strands a waiting page, whatever its state,
      exactly when no retry timer runs and either a 401 comes in, on the bootstrap call or on any other, or the last
      call that would be looked at is a focus call or the call after a logout, and fails. */
  lemma StrandedExactlyWhen(s: App, e: Event)
    requires Inv(s) && s.mounted && s.auth.None? && Asking(s)
    ensures Stranded(Step(s, e)) <==>
            s.timers == map[] &&
            (e.SessionRefused? || (e.Answered? && e.id in s.requests && e.answer.Unauthorized?)
             || (e.Answered? && LastHope(s, e.id, e.answer)))
  {
    var s' := Step(s, e);
    match e
    case Answered(id, answer) =>
      if id in s.requests && answer.Unauthorized? {
        StrandedByRefusal(s, e);
      } else if id in s.requests {
        StrandedByAnswer(s, id, answer);
      } else if a :| a in s.requests && Live(s, a) {
        StillAsking(s', a);
      }
    case SessionRefused => StrandedByRefusal(s, e);
    case TimerFires(id) =>
      if id in s.timers {
        StillAsking(s', s.clock);
      } else if a :| a in s.requests && Live(s, a) {
        StillAsking(s', a);
      }
    case Focus =>
      assert s'.timers == s.timers;
      if a :| a in s.requests && Live(s, a) {
        StillAsking(s', a);
      }
    case SignOut => StillAsking(s', s.clock);
    case _ =>
  }

  /** Nothing is in flight, no timer runs, and there is no identity yet. */
  predicate Idle(s: App) {
    s.auth.None? && s.timers == map[] && s.requests == map[]
  }

  lemma IdleStays(s: App, e: Event)
    requires Idle(s) && !e.Focus? && !e.SignIn? && !e.SignOut?
    ensures Idle(Step(s, e)) && (e != Unmount ==> Step(s, e).mounted == s.mounted)
  {
  }

  lemma RefusedAtOnce()
    ensures Idle(Run(INITIAL, [Answered(0, Unauthorized)])) && Run(INITIAL, [Answered(0, Unauthorized)]).mounted
  {
    var e := Answered(0, Unauthorized);
    assert [e][..0] == [];
    assert Run(INITIAL, [e]) == Step(INITIAL, e);
  }

  lemma {:induction false} IdleAfterRefusal(events: seq<Event>, answer: Event)
    requires answer == Answered(0, Unauthorized)
    requires forall k :: 0 <= k < |events| ==> !events[k].Focus? && !events[k].SignIn? && !events[k].SignOut?
    ensures Idle(Run(INITIAL, [answer] + events))
    ensures Unmount !in events ==> Run(INITIAL, [answer] + events).mounted
    decreases |events|
  {
    if events == [] {
      assert [answer] + events == [answer];
      RefusedAtOnce();
    } else {
      var before, all := events[..|events| - 1], [answer] + events;
      IdleAfterRefusal(before, answer);
      assert all[..|all| - 1] == [answer] + before;
      IdleStays(Run(INITIAL, [answer] + before), events[|events| - 1]);
    }
  }

  /** The first bootstrap call answered by a 401: no retry is scheduled, and without a focus event, a sign-in or a
      sign-out the page waits for ever, whatever else happens. */
  lemma RefusedBootstrapStrands(events: seq<Event>, answer: Event)
    requires answer == Answered(0, Unauthorized)
    requires forall k :: 0 <= k < |events| ==> !events[k].Focus? && !events[k].SignIn? && !events[k].SignOut?
    ensures var s := Run(INITIAL, [answer] + events);
      s.auth.None? && !Asking(s) && s.requests == map[]
    ensures Unmount !in events ==> Stranded(Run(INITIAL, [answer] + events))
  {
    IdleAfterRefusal(events, answer);
  }

  /** The same end from a sign-out: the page signs out while it waits, and both the logout and the call after it
      fail. Until then it is asking. */
  lemma SignOutWhileWaiting(answer: Answer)
    requires answer != Unauthorized
    ensures var events := [SignOut, Answered(1, Failed), Answered(2, answer)];
      && Asking(Run(INITIAL, events[..1])) && Asking(Run(INITIAL, events[..2]))
      && (Stranded(Run(INITIAL, events)) <==> !answer.Identity?)
  {
    var events := [SignOut, Answered(1, Failed), Answered(2, answer)];
    StateAtNext(events, 0);
    StateAtNext(events, 1);
    StateAtNext(events, 2);
    assert events[..3] == events;
    var s1, s2 := StateAt(events, 1), StateAt(events, 2);
    assert s1.requests[1] == Request(Logout, 1) && s2.requests[2] == Request(AfterLogout, 1);
    StillAsking(s1, 1);
    StillAsking(s2, 2);
  }
}
