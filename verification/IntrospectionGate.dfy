/** The introspection globals of apps/api/app/security.py, updated in place by requests that overlap. */
module IntrospectionGate {
  import opened Prelude
  import opened Introspection

  class Gate {
    var cache: map<string, Entry>
    var cbFailures: nat
    var cbOpenSince: Option<real>
    // Requests that are waiting for the authorization server.
    var inFlight: map<nat, string>
    var clock: real
    var ticks: nat

    ghost function Globals(): Guard
      reads this
    {
      Guard(cache, cbFailures, cbOpenSince)
    }

    ghost function Now(): State
      reads this
    {
      State(Globals(), inFlight, clock, ticks)
    }

    constructor ()
      ensures Now() == INITIAL
    {
      cache, cbFailures, cbOpenSince := map[], 0, None;
      inFlight, clock, ticks := map[], 0.0, 0;
    }

    method Get(key: string, now: real) returns (payload: Option<Payload>)
      modifies this`cache
      ensures (Globals(), payload) == CacheGet(old(Globals()), key, now)
    {
      if key !in cache {
        return None;
      }
      var entry := cache[key];
      if now > entry.expiresAt {
        cache := cache - {key};
        return None;
      }
      payload := Some(entry.payload);
    }

    method Put(key: string, payload: Payload, stored: real, swept: real)
      modifies this`cache
      ensures Globals() == CacheSet(old(Globals()), key, payload, stored, swept)
    {
      cache := cache[key := Entry(payload, stored + CACHE_TTL)];
      if |cache| > CACHE_LIMIT {
        ghost var full := cache;
        var stale := set k | k in cache && swept > cache[k].expiresAt;
        while stale != {}
          invariant stale <= Stale(full, swept)
          invariant cache == full - (Stale(full, swept) - stale)
          decreases stale
        {
          var k :| k in stale;
          cache := cache - {k};
          stale := stale - {k};
        }
      }
    }

    method CbIsOpen(now: real) returns (open: bool)
      modifies this`cbOpenSince
      ensures (Globals(), open) == IsOpen(old(Globals()), now)
    {
      if cbOpenSince.None? {
        return false;
      }
      if now - cbOpenSince.value >= CB_RESET_AFTER {
        cbOpenSince := None;
        return false;
      }
      open := true;
    }

    method CbRecordFailure(now: real)
      modifies this`cbFailures, this`cbOpenSince
      ensures Globals() == RecordFailure(old(Globals()), now)
    {
      cbFailures := cbFailures + 1;
      if cbFailures >= CB_FAILURE_THRESHOLD {
        cbOpenSince := Some(now);
        cbFailures := 0;
      }
    }

    method CbRecordSuccess()
      modifies this`cbFailures
      ensures Globals() == RecordSuccess(old(Globals()))
    {
      cbFailures := 0;
    }

    /** `_external_oauth_principal` up to the POST. */
    method AskFor(token: string, now: real, later: real) returns (output: Output)
      modifies this
      ensures (Now(), output) == Step(old(Now()), Ask(token, now, later))
    {
      var cached := Get(token, now);
      if cached.Some? {
        output := Served(cached.value);
      } else {
        var open := CbIsOpen(later);
        if open {
          output := Refused;
        } else {
          inFlight := inFlight[ticks := token];
          output := Posted;
        }
      }
      clock, ticks := later, ticks + 1;
    }

    /** `_external_oauth_principal` from the reply on. */
    method Replied(id: nat, result: ServerResult, now: real, later: real) returns (output: Output)
      modifies this
      ensures (Now(), output) == Step(old(Now()), Reply(id, result, now, later))
    {
      output := Denied;
      if id in inFlight {
        var token := inFlight[id];
        inFlight := inFlight - {id};
        match result
        case Failure => CbRecordFailure(now);
        case Abandoned =>
        case Answer(payload) =>
          CbRecordSuccess();
          if payload.active {
            Put(token, payload, now, later);
            output := Served(payload);
          }
      }
      clock, ticks := later, ticks + 1;
    }
  }
}
