/** The page's refs and auth state as the handlers of apps/web/src/App.tsx update them. */
module IdentityPage {
  import opened Prelude
  import opened Identity

  class AuthShell {
    var auth: Option<AuthState>
    var apiReachable: bool
    var authRevisionRef: nat
    var signedOutRef: bool
    var retryCountRef: nat
    var retryRef: Option<nat>
    // The browser's side: timers set and requests in flight.
    var timers: map<nat, nat>
    var requests: map<nat, Request>
    var mounted: bool
    var clock: nat

    ghost function Now(): App
      reads this
    {
      App(auth, apiReachable, authRevisionRef, signedOutRef, retryCountRef, retryRef, timers, requests, mounted, clock)
    }

    /** Mounting loads the identity. */
    constructor ()
      ensures Now() == INITIAL
    {
      auth, apiReachable, authRevisionRef, signedOutRef := None, true, 0, false;
      retryCountRef, retryRef, timers, mounted := 0, None, map[], true;
      requests := map[0 := Request(Bootstrap, 0)];
      clock := 1;
    }

    /** Sends a call that remembers `revision`. */
    method Send(kind: Kind, revision: nat)
      modifies this`requests
      ensures Now() == Begin(old(Now()), kind, revision)
    {
      requests := requests[clock := Request(kind, revision)];
    }

    method ClearRetryTimer()
      modifies this`timers
      ensures Now() == ClearRetry(old(Now()))
    {
      if retryRef.Some? {
        timers := timers - {retryRef.value};
      }
    }

    /** The handler registered for 401s. */
    method Unauthorized()
      modifies this
      ensures Now() == OnUnauthorized(old(Now()))
      ensures !old(mounted) || old(auth).None? ==> auth == old(auth)
      ensures old(mounted) && old(auth).Some? ==> auth == Some(old(auth).value.(signedIn := false, user := None))
    {
      if mounted {
        authRevisionRef := authRevisionRef + 1;
        if auth.Some? {
          auth := Some(auth.value.(signedIn := false, user := None));
        }
      }
    }

    method SignedIn(user: User)
      modifies this
      ensures Now() == OnSignedIn(old(Now()), user)
    {
      if mounted {
        authRevisionRef := authRevisionRef + 1;
        signedOutRef := false;
        ClearRetryTimer();
        auth := Some(if auth.None? then AuthState(true, true, false, false, None, Some(user))
                     else auth.value.(authRequired := true, signedIn := true, user := Some(user)));
      }
    }

    method SignOutClicked()
      modifies this
      ensures Now() == OnSignOut(old(Now()))
      ensures !old(mounted) || old(auth).None? ==> auth == old(auth)
      ensures old(mounted) && old(auth).Some? ==> auth == Some(old(auth).value.(signedIn := false, user := None))
    {
      if mounted {
        signedOutRef := true;
        authRevisionRef := authRevisionRef + 1;
        var revision := authRevisionRef;
        ClearRetryTimer();
        Send(Logout, revision);
        if auth.Some? {
          auth := Some(auth.value.(signedIn := false, user := None));
        }
      }
    }

    method RefreshIdentity()
      modifies this`requests
      ensures Now() == OnFocus(old(Now()))
    {
      if !mounted || signedOutRef {
        return;
      }
      Send(Refresh, authRevisionRef);
    }

    method Unmounted()
      modifies this
      ensures Now() == OnUnmount(old(Now()))
    {
      if mounted {
        authRevisionRef := authRevisionRef + 1;
        mounted := false;
        ClearRetryTimer();
      }
    }

    method RetryTimer(id: nat)
      modifies this
      ensures Now() == OnTimer(old(Now()), id)
    {
      if id in timers {
        timers := timers - {id};
        Send(Bootstrap, authRevisionRef);
      }
    }

    /** `loadAuth`'s `then` and `catch`. */
    method BootstrapDone(revision: nat, answer: Answer)
      modifies this
      ensures Now() == Continue(old(Now()), Request(Bootstrap, revision), answer)
    {
      if revision != authRevisionRef || signedOutRef {
        return;
      }
      match answer
      case Identity(state) =>
        retryCountRef := 0;
        auth := Some(state);
        apiReachable := true;
      case NotFound =>
        auth := Some(NO_AUTH_FALLBACK);
        apiReachable := true;
      case _ =>
        apiReachable := false;
        auth := None;
        var last := |AUTH_RETRY_DELAYS_MS| - 1;
        var retryIndex := if retryCountRef <= last then retryCountRef else last;
        retryCountRef := retryIndex + 1;
        timers := timers[clock := AUTH_RETRY_DELAYS_MS[retryIndex]];
        retryRef := Some(clock);
    }

    method CallDone(id: nat, answer: Answer)
      modifies this
      ensures Now() == OnAnswer(old(Now()), id, answer)
    {
      if id !in requests {
        return;
      }
      var r := requests[id];
      requests := requests - {id};
      if answer.Unauthorized? {
        Unauthorized();
      }
      match r.kind
      case Bootstrap => BootstrapDone(r.revision, answer);
      case Refresh =>
        if answer.Identity? && r.revision == authRevisionRef && !signedOutRef {
          auth := Some(answer.state);
        }
      case Logout => Send(AfterLogout, r.revision);
      case AfterLogout =>
        if answer.Identity? && r.revision == authRevisionRef {
          auth := Some(answer.state.(signedIn := false, user := None));
        }
    }

    method HandleEvent(e: Event)
      modifies this
      ensures Now() == Handle(old(Now()), e)
    {
      match e {
        case Answered(id, answer) => CallDone(id, answer);
        case TimerFires(id) => RetryTimer(id);
        case SessionRefused => Unauthorized();
        case SignIn(user) => SignedIn(user);
        case SignOut => SignOutClicked();
        case Focus => RefreshIdentity();
        case Unmount => Unmounted();
      }
    }

    method Dispatch(e: Event)
      modifies this
      ensures Now() == Step(old(Now()), e)
    {
      HandleEvent(e);
      clock := clock + 1;
    }
  }
}
