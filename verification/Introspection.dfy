/** OAuth token introspection of apps/api/app/security.py: a 60-second cache in front of the authorization server and a
    circuit breaker around the calls to it, used by requests that overlap in any order. */
module Introspection {
  import opened Prelude

  const CACHE_TTL: real := 60.0
  const CACHE_LIMIT := 2000
  const CB_FAILURE_THRESHOLD := 5
  const CB_RESET_AFTER: real := 30.0

  /** A decoded introspection answer; `active` is `payload.get("active") is True`. */
  datatype Payload = Payload(active: bool, claims: string)

  datatype Entry = Entry(payload: Payload, expiresAt: real)

  /** The module's globals. Cache keys are token hashes, taken to be as good as the token. */
  datatype Guard = Guard(cache: map<string, Entry>, failures: nat, openSince: Option<real>)

  const EMPTY_GUARD := Guard(map[], 0, None)

  /** `_introspection_cache_get`: a stale entry is dropped when it is met. */
  function CacheGet(g: Guard, key: string, now: real): (Guard, Option<Payload>) {
    if key !in g.cache then (g, None)
    else if now > g.cache[key].expiresAt then (g.(cache := g.cache - {key}), None)
    else (g, Some(g.cache[key].payload))
  }

  function Stale(cache: map<string, Entry>, now: real): set<string> {
    set k | k in cache && now > cache[k].expiresAt
  }

  /** `_introspection_cache_set`: stale entries are swept once the cache has grown past its limit. */
  function CacheSet(g: Guard, key: string, payload: Payload, stored: real, swept: real): Guard {
    var cache := g.cache[key := Entry(payload, stored + CACHE_TTL)];
    g.(cache := if |cache| > CACHE_LIMIT then cache - Stale(cache, swept) else cache)
  }

  /** `_cb_is_open`: the breaker closes itself when it is asked after the waiting time. */
  function IsOpen(g: Guard, now: real): (Guard, bool) {
    if g.openSince.None? then (g, false)
    else if now - g.openSince.value >= CB_RESET_AFTER then (g.(openSince := None), false)
    else (g, true)
  }

  function RecordFailure(g: Guard, now: real): Guard {
    if g.failures + 1 >= CB_FAILURE_THRESHOLD then g.(openSince := Some(now), failures := 0)
    else g.(failures := g.failures + 1)
  }

  function RecordSuccess(g: Guard): Guard {
    g.(failures := 0)
  }

  // ---- Overlapping requests ----

  /** A request asks (reading the clock at `now` and again, for the breaker, at `later`); if it posts, the server's
      reply arrives at some later event, in any order, or never. */
  datatype ServerResult = Failure | Answer(payload: Payload) | Abandoned

  datatype Event =
    | Ask(token: string, now: real, later: real)
    | Reply(id: nat, result: ServerResult, now: real, later: real)

  datatype Output = Served(payload: Payload) | Refused | Posted | Denied

  /** `inFlight` maps the event number of each outstanding POST to its token. */
  datatype State = State(guard: Guard, inFlight: map<nat, string>, clock: real, ticks: nat)

  function Step(s: State, e: Event): (State, Output) {
    match e
    case Ask(token, now, later) =>
      var (g, hit) := CacheGet(s.guard, token, now);
      if hit.Some? then (State(g, s.inFlight, later, s.ticks + 1), Served(hit.value))
      else
        var (g2, open) := IsOpen(g, later);
        if open then (State(g2, s.inFlight, later, s.ticks + 1), Refused)
        else (State(g2, s.inFlight[s.ticks := token], later, s.ticks + 1), Posted)
    case Reply(id, result, now, later) =>
      if id !in s.inFlight then (State(s.guard, s.inFlight, later, s.ticks + 1), Denied)
      else
        var rest := s.inFlight - {id};
        match result
        case Failure => (State(RecordFailure(s.guard, now), rest, later, s.ticks + 1), Denied)
        case Abandoned => (State(s.guard, rest, later, s.ticks + 1), Denied)
        case Answer(payload) =>
          var g := RecordSuccess(s.guard);
          if !payload.active then (State(g, rest, later, s.ticks + 1), Denied)
          else (State(CacheSet(g, s.inFlight[id], payload, now, later), rest, later, s.ticks + 1), Served(payload))
  }

  // ---- The reference: a log that forgets nothing, and the list of finished calls ----

  datatype Stored = Stored(token: string, payload: Payload, time: real)

  datatype CallEnd = CallEnd(failed: bool, time: real)

  datatype Ref = Ref(log: seq<Stored>, calls: seq<CallEnd>, inFlight: map<nat, string>, clock: real, ticks: nat)

  function LastStored(log: seq<Stored>, token: string): Option<Stored> {
    if log == [] then None
    else if log[|log| - 1].token == token then Some(log[|log| - 1])
    else LastStored(log[..|log| - 1], token)
  }

  /** The newest stored answer, for 60 seconds. */
  function LogGet(log: seq<Stored>, token: string, now: real): Option<Payload> {
    var last := LastStored(log, token);
    if last.Some? && now <= last.value.time + CACHE_TTL then Some(last.value.payload) else None
  }

  /** Failures since the latest success. */
  function Streak(calls: seq<CallEnd>): nat {
    if calls == [] || !calls[|calls| - 1].failed then 0 else Streak(calls[..|calls| - 1]) + 1
  }

  /** The breaker opens at every fifth failure of a streak: the time of the latest opening. */
  function LastOpening(calls: seq<CallEnd>): Option<real> {
    if calls == [] then None
    else if calls[|calls| - 1].failed && Streak(calls) % CB_FAILURE_THRESHOLD == 0
    then Some(calls[|calls| - 1].time)
    else LastOpening(calls[..|calls| - 1])
  }

  predicate RefOpen(calls: seq<CallEnd>, now: real) {
    LastOpening(calls).Some? && now - LastOpening(calls).value < CB_RESET_AFTER
  }

  function RefStep(r: Ref, e: Event): (Ref, Output) {
    match e
    case Ask(token, now, later) =>
      var hit := LogGet(r.log, token, now);
      var next := r.(clock := later, ticks := r.ticks + 1);
      if hit.Some? then (next, Served(hit.value))
      else if RefOpen(r.calls, later) then (next, Refused)
      else (next.(inFlight := r.inFlight[r.ticks := token]), Posted)
    case Reply(id, result, now, later) =>
      var next := r.(clock := later, ticks := r.ticks + 1);
      if id !in r.inFlight then (next, Denied)
      else
        var done := next.(inFlight := r.inFlight - {id});
        match result
        case Failure => (done.(calls := r.calls + [CallEnd(true, now)]), Denied)
        case Abandoned => (done, Denied)
        case Answer(payload) =>
          var answered := done.(calls := r.calls + [CallEnd(false, now)]);
          if !payload.active then (answered, Denied)
          else (answered.(log := r.log + [Stored(r.inFlight[id], payload, now)]), Served(payload))
  }

  // ---- Refinement ----

  /** The monotone clock: each event reads it twice, no earlier than the event before. */
  predicate OnTime(clock: real, e: Event) {
    clock <= e.now <= e.later
  }

  predicate CacheMatches(cache: map<string, Entry>, log: seq<Stored>, clock: real, token: string) {
    var last := LastStored(log, token);
    if token in cache
    then last.Some? && cache[token] == Entry(last.value.payload, last.value.time + CACHE_TTL)
    else last.None? || last.value.time + CACHE_TTL < clock
  }

  predicate BreakerMatches(g: Guard, calls: seq<CallEnd>, clock: real) {
    var last := LastOpening(calls);
    && g.failures == Streak(calls) % CB_FAILURE_THRESHOLD
    && (last.None? ==> g.openSince.None?)
    && (last.Some? ==>
          last.value <= clock &&
          (g.openSince == last || (g.openSince.None? && clock - last.value >= CB_RESET_AFTER)))
  }

  ghost predicate Simulates(s: State, r: Ref) {
    && s.inFlight == r.inFlight && s.clock == r.clock && s.ticks == r.ticks
    && BreakerMatches(s.guard, r.calls, s.clock)
    && forall token :: CacheMatches(s.guard.cache, r.log, s.clock, token)
  }

  lemma OneMoreCall(calls: seq<CallEnd>, c: CallEnd)
    ensures Streak(calls + [c]) == if c.failed then Streak(calls) + 1 else 0
    ensures LastOpening(calls + [c]) ==
            if c.failed && (Streak(calls) + 1) % CB_FAILURE_THRESHOLD == 0 then Some(c.time) else LastOpening(calls)
  {
    assert (calls + [c])[..|calls|] == calls;
  }

  lemma OneMoreStored(log: seq<Stored>, x: Stored, token: string)
    ensures LastStored(log + [x], token) == if x.token == token then Some(x) else LastStored(log, token)
  {
    assert (log + [x])[..|log|] == log;
  }

  lemma AskRefines(s: State, r: Ref, e: Event)
    requires e.Ask? && Simulates(s, r) && OnTime(s.clock, e)
    ensures Step(s, e).1 == RefStep(r, e).1 && Simulates(Step(s, e).0, RefStep(r, e).0)
  {
    assert CacheMatches(s.guard.cache, r.log, s.clock, e.token);
    var s', r' := Step(s, e).0, RefStep(r, e).0;
    forall token ensures CacheMatches(s'.guard.cache, r'.log, s'.clock, token) {
      assert CacheMatches(s.guard.cache, r.log, s.clock, token);
    }
  }

  lemma NextInStreak(streak: nat)
    ensures var failures := streak % CB_FAILURE_THRESHOLD;
      (streak + 1) % CB_FAILURE_THRESHOLD == if failures + 1 >= CB_FAILURE_THRESHOLD then 0 else failures + 1
  {
  }

  lemma FailureRefines(g: Guard, calls: seq<CallEnd>, clock: real, now: real, later: real)
    requires BreakerMatches(g, calls, clock) && clock <= now <= later
    ensures BreakerMatches(RecordFailure(g, now), calls + [CallEnd(true, now)], later)
  {
    OneMoreCall(calls, CallEnd(true, now));
    NextInStreak(Streak(calls));
  }

  lemma SuccessRefines(g: Guard, calls: seq<CallEnd>, clock: real, now: real, later: real)
    requires BreakerMatches(g, calls, clock) && clock <= now <= later
    ensures BreakerMatches(RecordSuccess(g), calls + [CallEnd(false, now)], later)
  {
    OneMoreCall(calls, CallEnd(false, now));
  }

  /** Sweeping removes only what no later reader could have been served. */
  lemma StoreRefines(g: Guard, log: seq<Stored>, clock: real, x: Stored, later: real, token: string)
    requires CacheMatches(g.cache, log, clock, token) && clock <= x.time <= later
    ensures CacheMatches(CacheSet(g, x.token, x.payload, x.time, later).cache, log + [x], later, token)
  {
    OneMoreStored(log, x, token);
  }

  lemma ReplyRefines(s: State, r: Ref, e: Event)
    requires e.Reply? && Simulates(s, r) && OnTime(s.clock, e)
    ensures Step(s, e).1 == RefStep(r, e).1 && Simulates(Step(s, e).0, RefStep(r, e).0)
  {
    var s', r' := Step(s, e).0, RefStep(r, e).0;
    if e.id in s.inFlight {
      match e.result
      case Failure => FailureRefines(s.guard, r.calls, s.clock, e.now, e.later);
      case Answer(p) => SuccessRefines(s.guard, r.calls, s.clock, e.now, e.later);
      case Abandoned =>
    }
    forall token ensures CacheMatches(s'.guard.cache, r'.log, s'.clock, token) {
      assert CacheMatches(s.guard.cache, r.log, s.clock, token);
      if e.id in s.inFlight && e.result.Answer? && e.result.payload.active {
        StoreRefines(RecordSuccess(s.guard), r.log, s.clock, Stored(s.inFlight[e.id], e.result.payload, e.now),
                     e.later, token);
      }
    }
  }

  // ---- Whole runs ----

  const INITIAL := State(EMPTY_GUARD, map[], 0.0, 0)
  const REF_INITIAL := Ref([], [], map[], 0.0, 0)

  function Run(events: seq<Event>): State {
    if events == [] then INITIAL else Step(Run(events[..|events| - 1]), events[|events| - 1]).0
  }

  function RefRun(events: seq<Event>): Ref {
    if events == [] then REF_INITIAL else RefStep(RefRun(events[..|events| - 1]), events[|events| - 1]).0
  }

  /** What event `k` of the run was answered. */
  function OutputAt(events: seq<Event>, k: nat): Output
    requires k < |events|
  {
    Step(Run(events[..k]), events[k]).1
  }

  /** Times from 0 on, under a clock that never runs backwards. */
  ghost predicate Monotone(events: seq<Event>) {
    events == [] ||
    (Monotone(events[..|events| - 1]) && OnTime(EndTime(events[..|events| - 1]), events[|events| - 1]))
  }

  function EndTime(events: seq<Event>): real {
    if events == [] then 0.0 else events[|events| - 1].later
  }

  lemma {:induction false} RunRefines(events: seq<Event>)
    requires Monotone(events)
    ensures Simulates(Run(events), RefRun(events))
    ensures Run(events).clock == EndTime(events)
    ensures Run(events).ticks == |events|
    decreases |events|
  {
    if events == [] {
      forall token ensures CacheMatches(INITIAL.guard.cache, REF_INITIAL.log, 0.0, token) {
      }
    } else {
      var before, e := events[..|events| - 1], events[|events| - 1];
      RunRefines(before);
      if e.Ask? {
        AskRefines(Run(before), RefRun(before), e);
      } else {
        ReplyRefines(Run(before), RefRun(before), e);
      }
    }
  }

  lemma {:induction false} PrefixMonotone(events: seq<Event>, k: nat)
    requires Monotone(events) && k <= |events|
    ensures Monotone(events[..k])
    ensures k < |events| ==> OnTime(EndTime(events[..k]), events[k])
    decreases |events|
  {
    if k == |events| {
      assert events[..k] == events;
    } else {
      var before := events[..|events| - 1];
      PrefixMonotone(before, k);
      assert before[..k] == events[..k];
    }
  }

  /** The cache with its lazy expiry and its sweeps, and the breaker with its counter, answer every request of every
      interleaving as the unbounded log and the list of finished calls do. */
  lemma AnswersAsReference(events: seq<Event>, k: nat)
    requires Monotone(events) && k < |events|
    ensures OutputAt(events, k) == RefStep(RefRun(events[..k]), events[k]).1
    ensures Run(events[..k]).guard.failures == Streak(RefRun(events[..k]).calls) % 5
  {
    PrefixMonotone(events, k);
    RunRefines(events[..k]);
    assert OnTime(Run(events[..k]).clock, events[k]);
    if events[k].Ask? {
      AskRefines(Run(events[..k]), RefRun(events[..k]), events[k]);
    } else {
      ReplyRefines(Run(events[..k]), RefRun(events[..k]), events[k]);
    }
  }

  // ---- What callers get from it ----

  /** An outstanding POST was begun by the event it is named after, for that event's token. */
  lemma {:induction false} InFlightWasPosted(events: seq<Event>, id: nat)
    requires Monotone(events) && id in Run(events).inFlight
    ensures id < |events| && events[id].Ask? && events[id].token == Run(events).inFlight[id]
    ensures OutputAt(events, id) == Posted
    decreases |events|
  {
    if events != [] {
      var before := events[..|events| - 1];
      RunRefines(before);
      if id in Run(before).inFlight {
        InFlightWasPosted(before, id);
        assert before[..id] == events[..id];
      } else {
        assert id == |before|;
      }
    }
  }

  predicate Finishes(s: State, e: Event) {
    e.Reply? && e.id in s.inFlight
  }

  /** The event puts an active payload in the log. */
  predicate Stores(s: State, e: Event) {
    Finishes(s, e) && e.result.Answer? && e.result.payload.active
  }

  lemma LogGrows(r: Ref, s: State, e: Event)
    requires r.inFlight == s.inFlight
    ensures RefStep(r, e).0.log ==
            if Stores(s, e) then r.log + [Stored(s.inFlight[e.id], e.result.payload, e.now)] else r.log
  {
  }

  /** At event `m` an active payload about this token arrives. */
  predicate StoresFor(events: seq<Event>, m: nat, token: string)
    requires m < |events|
  {
    Stores(Run(events[..m]), events[m]) && Run(events[..m]).inFlight[events[m].id] == token
  }

  /** The log's newest entry about a token after one more event. */
  lemma LogStep(events: seq<Event>, token: string)
    requires Monotone(events) && events != []
    ensures var before, e := events[..|events| - 1], events[|events| - 1];
      LastStored(RefRun(events).log, token) ==
      if StoresFor(events, |before|, token) then Some(Stored(token, e.result.payload, e.now))
      else LastStored(RefRun(before).log, token)
  {
    var before, e := events[..|events| - 1], events[|events| - 1];
    var r, s := RefRun(before), Run(before);
    RunRefines(before);
    LogGrows(r, s, e);
    if Stores(s, e) {
      OneMoreStored(r.log, Stored(s.inFlight[e.id], e.result.payload, e.now), token);
    }
  }

  lemma SameStores(events: seq<Event>, n: nat, m: nat, token: string)
    requires m < n <= |events|
    ensures StoresFor(events[..n], m, token) == StoresFor(events, m, token)
  {
    assert events[..n][..m] == events[..m];
  }

  /** Nothing about the token is stored between `j` and `n`. */
  ghost predicate NoneSince(events: seq<Event>, j: nat, n: nat, token: string)
    requires n <= |events|
  {
    forall m :: j < m < n ==> !StoresFor(events, m, token)
  }

  lemma SameSince(events: seq<Event>, j: nat, n: nat, token: string)
    requires n <= |events|
    ensures NoneSince(events[..n], j, n, token) <==> NoneSince(events, j, n, token)
  {
    forall m: nat | m < n ensures StoresFor(events[..n], m, token) == StoresFor(events, m, token) {
      SameStores(events, n, m, token);
    }
  }

  /** Whatever the log holds for a token arrived as the reply to a POST about that token, said active, and is the
      newest such reply. */
  lemma {:induction false} LogComesFromReplies(events: seq<Event>, token: string) returns (k: nat)
    requires Monotone(events) && LastStored(RefRun(events).log, token).Some?
    ensures k < |events| && StoresFor(events, k, token)
    ensures LastStored(RefRun(events).log, token) == Some(Stored(token, events[k].result.payload, events[k].now))
    ensures NoneSince(events, k, |events|, token)
    decreases |events|
  {
    assert events != [];
    var n := |events| - 1;
    LogStep(events, token);
    if StoresFor(events, n, token) {
      k := n;
    } else {
      k := LogComesFromReplies(events[..n], token);
      SameStores(events, n, k, token);
      SameSince(events, k, n, token);
    }
  }

  /** The newest active answer about the token is the one the log holds. */
  lemma {:induction false} NewestIsLogged(events: seq<Event>, token: string, j: nat)
    requires Monotone(events) && j < |events| && StoresFor(events, j, token)
    requires NoneSince(events, j, |events|, token)
    ensures LastStored(RefRun(events).log, token) == Some(Stored(token, events[j].result.payload, events[j].now))
    decreases |events|
  {
    var n := |events| - 1;
    LogStep(events, token);
    if j < n {
      SameStores(events, n, j, token);
      SameSince(events, j, n, token);
      NewestIsLogged(events[..n], token, j);
    }
  }

  /** The newest active answer about the request's token arrived at event `j`, at most 60 s ago. */
  ghost predicate FreshFrom(events: seq<Event>, k: nat, j: nat)
    requires k < |events| && events[k].Ask?
  {
    j < k && StoresFor(events, j, events[k].token) && events[k].now - events[j].now <= 60.0
    && NoneSince(events, j, k, events[k].token)
  }

  /** How a request is answered before any POST: from the cache exactly when the newest active answer about its token
      is at most 60 s old; otherwise refused exactly within 30 s of the breaker's latest opening, and else posted. */
  lemma AskVerdicts(events: seq<Event>, k: nat)
    requires Monotone(events) && k < |events| && events[k].Ask?
    ensures var output, opening := OutputAt(events, k), LastOpening(RefRun(events[..k]).calls);
      var open := opening.Some? && events[k].later - opening.value < 30.0;
      && (output.Served? <==> exists j: nat :: FreshFrom(events, k, j))
      && (forall j: nat :: FreshFrom(events, k, j) ==> output == Served(events[j].result.payload))
      && (!output.Served? ==> output == if open then Refused else Posted)
  {
    var token, before := events[k].token, events[..k];
    AnswersAsReference(events, k);
    PrefixMonotone(events, k);
    if OutputAt(events, k).Served? {
      var j := LogComesFromReplies(before, token);
      SameStores(events, k, j, token);
      SameSince(events, j, k, token);
      assert FreshFrom(events, k, j);
    }
    forall j: nat | FreshFrom(events, k, j) ensures OutputAt(events, k) == Served(events[j].result.payload) {
      SameStores(events, k, j, token);
      SameSince(events, j, k, token);
      NewestIsLogged(before, token, j);
    }
  }

  /** How a reply is answered: with the payload exactly when the request was waiting and the payload is active. */
  lemma ReplyVerdicts(events: seq<Event>, k: nat)
    requires k < |events| && events[k].Reply?
    ensures var output, result := OutputAt(events, k), events[k].result;
      var accepted := events[k].id in Run(events[..k]).inFlight && result.Answer? && result.payload.active;
      output == if accepted then Served(result.payload) else Denied
  {
  }

  /** A payload served from the cache is one the server called active, for this very token, at most 60 s earlier. */
  lemma ServedIsRecentAndActive(events: seq<Event>, k: nat) returns (j: nat)
    requires Monotone(events) && k < |events| && events[k].Ask? && OutputAt(events, k).Served?
    ensures j < k && Stores(Run(events[..j]), events[j]) && events[j].result.payload == OutputAt(events, k).payload
    ensures Run(events[..j]).inFlight[events[j].id] == events[k].token
    ensures events[k].now - events[j].now <= 60.0
  {
    AnswersAsReference(events, k);
    PrefixMonotone(events, k);
    j := LogComesFromReplies(events[..k], events[k].token);
    assert events[..k][..j] == events[..j];
  }

  /** No POST starts within 30 s of the latest opening, whatever replies come in meanwhile. */
  lemma PostsWaitOutTheBreaker(events: seq<Event>, k: nat)
    requires Monotone(events) && k < |events| && OutputAt(events, k) == Posted
    ensures var opening := LastOpening(RefRun(events[..k]).calls);
      opening.Some? ==> events[k].later - opening.value >= 30.0
  {
    AnswersAsReference(events, k);
  }

  // ---- How hard a failing server can be hit ----

  /** At every moment at most `n` POSTs are out. */
  ghost predicate AtMostOut(events: seq<Event>, n: nat) {
    |Run(events).inFlight| <= n && (events == [] || AtMostOut(events[..|events| - 1], n))
  }

  /** Failed POSTs from event `i` on. */
  function FailedPosts(events: seq<Event>, i: nat): nat {
    if |events| <= i then 0
    else
      var before, e := events[..|events| - 1], events[|events| - 1];
      FailedPosts(before, i) + if Finishes(Run(before), e) && e.result.Failure? then 1 else 0
  }

  ghost predicate SuccessFree(events: seq<Event>, i: nat) {
    |events| <= i ||
    (SuccessFree(events[..|events| - 1], i) &&
     !(Finishes(Run(events[..|events| - 1]), events[|events| - 1]) && events[|events| - 1].result.Answer?))
  }

  /** The breaker has opened between the `a`-th and the `b`-th failure of a streak. */
  predicate Opened(a: nat, b: nat) {
    a / CB_FAILURE_THRESHOLD < b / CB_FAILURE_THRESHOLD
  }

  /** Where the count stands: the streak, the failures counted, the POSTs that are out, the breaker's latest opening,
      and the time. */
  datatype Pace = Pace(streak: nat, failed: nat, out: nat, opening: Option<real>, end: real)

  /** n + 4 failures a period. */
  function Allowance(n: nat, periods: nat): nat {
    if periods == 0 then 0 else Allowance(n, periods - 1) + n + 4
  }

  lemma {:induction false} AllowanceWithin(n: nat, periods: nat, bound: int)
    requires periods <= bound
    ensures Allowance(n, periods) <= (n + 4) * bound
  {
    if periods == 0 {
      assert (n + 4) * bound >= 0;
    } else {
      AllowanceWithin(n, periods - 1, bound - 1);
      assert (n + 4) * bound == (n + 4) * (bound - 1) + n + 4;
    }
  }

  /** The count, from a streak of `from` on, by periods: a period ends at the first POST after an opening, hence at
      least 30 s after it began. `base` failures fell into the earlier periods. Before this period's opening it holds
      at most 4 failures; after it nothing is posted, so that at most what is out can still fail. */
  ghost predicate Paced(p: Pace, from: nat, n: nat, period: nat, base: nat, start: real) {
    && p.streak == from + p.failed && base <= p.failed && p.out <= n && base <= Allowance(n, period)
    && (period > 0 ==> p.end >= start + CB_RESET_AFTER * period as real)
    && (Opened(from + base, p.streak) ==>
          && p.failed + p.out <= Allowance(n, period + 1)
          && p.opening.Some? && p.opening.value >= start + CB_RESET_AFTER * period as real)
  }

  lemma NotOpened(a: nat, b: nat)
    requires a <= b && !Opened(a, b)
    ensures b <= a + 4
  {
  }

  lemma OpensAtFifth(a: nat, b: nat)
    requires a <= b
    ensures Opened(a, b + 1) <==> Opened(a, b) || (b + 1) % CB_FAILURE_THRESHOLD == 0
  {
  }

  /** One POST fails at `now`. */
  predicate OneFails(p: Pace, p': Pace, now: real) {
    && p.out > 0 && p.end <= now <= p'.end
    && p'.streak == p.streak + 1 && p'.failed == p.failed + 1 && p'.out == p.out - 1
    && p'.opening == if p'.streak % CB_FAILURE_THRESHOLD == 0 then Some(now) else p.opening
  }

  /** Anything but a reply that counts; a POST waits out the breaker. */
  predicate NoneFails(p: Pace, p': Pace) {
    && p.end <= p'.end && p'.streak == p.streak && p'.failed == p.failed && p'.opening == p.opening
    && (p'.out <= p.out || (p.opening.Some? ==> p'.end >= p.opening.value + CB_RESET_AFTER))
  }

  lemma PacedFailure(p: Pace, p': Pace, from: nat, n: nat, period: nat, base: nat, now: real, start: real)
    requires Paced(p, from, n, period, base, start) && OneFails(p, p', now) && start <= now
    ensures Paced(p', from, n, period, base, start)
  {
    OpensAtFifth(from + base, p.streak);
    if !Opened(from + base, p.streak) {
      NotOpened(from + base, p.streak);
    }
  }

  /** A POST after an opening begins the next period. */
  lemma PacedOther(p: Pace, p': Pace, from: nat, n: nat, period: nat, base: nat, start: real)
    returns (period': nat, base': nat)
    requires Paced(p, from, n, period, base, start) && NoneFails(p, p') && p'.out <= n
    ensures Paced(p', from, n, period', base', start)
  {
    if p'.out > p.out && Opened(from + base, p.streak) {
      period', base' := period + 1, p.failed;
    } else {
      period', base' := period, base;
    }
  }

  lemma FloorBelow(time: real)
    requires time >= 0.0
    ensures (time / CB_RESET_AFTER).Floor >= 0
    ensures time < CB_RESET_AFTER * ((time / CB_RESET_AFTER).Floor + 1) as real
  {
  }

  lemma PacedWithin(p: Pace, from: nat, n: nat, period: nat, base: nat, start: real)
    requires Paced(p, from, n, period, base, start)
    ensures p.failed <= Allowance(n, period + 1)
  {
    if !Opened(from + base, p.streak) {
      NotOpened(from + base, p.streak);
    }
  }

  lemma PacedBudget(p: Pace, from: nat, n: nat, period: nat, base: nat, start: real, periods: nat)
    requires Paced(p, from, n, period, base, start) && start <= p.end < start + CB_RESET_AFTER * periods as real
    ensures p.failed <= (n + 4) * periods
  {
    PacedWithin(p, from, n, period, base, start);
    AllowanceWithin(n, period + 1, periods);
  }

  lemma CallsGrow(r: Ref, s: State, e: Event)
    requires r.inFlight == s.inFlight
    ensures RefStep(r, e).0.calls ==
            if Finishes(s, e) && e.result.Failure? then r.calls + [CallEnd(true, e.now)]
            else if Finishes(s, e) && e.result.Answer? then r.calls + [CallEnd(false, e.now)]
            else r.calls
  {
  }

  lemma {:induction false} TimesAfter(events: seq<Event>, i: nat)
    requires Monotone(events) && i < |events|
    ensures events[i].now <= events[|events| - 1].now
    decreases |events|
  {
    if i < |events| - 1 {
      var before := events[..|events| - 1];
      TimesAfter(before, i);
      PrefixMonotone(before, |before| - 1);
      assert OnTime(EndTime(before[..|before| - 1]), before[|before| - 1]);
    }
  }

  function PaceOf(events: seq<Event>, i: nat): Pace {
    Pace(Streak(RefRun(events).calls), FailedPosts(events, i), |Run(events).inFlight|,
         LastOpening(RefRun(events).calls), EndTime(events))
  }

  lemma OutAfter(s: State, e: Event)
    ensures var (s', output) := Step(s, e);
      && (output != Posted ==> |s'.inFlight| <= |s.inFlight|)
      && (Finishes(s, e) ==> |s'.inFlight| == |s.inFlight| - 1)
  {
    if Finishes(s, e) {
      assert (s.inFlight - {e.id}).Keys == s.inFlight.Keys - {e.id};
    }
  }

  lemma FailureCounted(events: seq<Event>, i: nat)
    requires Monotone(events) && i < |events|
    requires var before, e := events[..|events| - 1], events[|events| - 1];
      Finishes(Run(before), e) && e.result.Failure?
    ensures var before, e := events[..|events| - 1], events[|events| - 1];
      && RefRun(events).calls == RefRun(before).calls + [CallEnd(true, e.now)]
      && FailedPosts(events, i) == FailedPosts(before, i) + 1
      && |Run(before).inFlight| > 0 && |Run(events).inFlight| == |Run(before).inFlight| - 1
      && EndTime(before) <= e.now <= EndTime(events)
  {
    var before, e := events[..|events| - 1], events[|events| - 1];
    RunRefines(before);
    CallsGrow(RefRun(before), Run(before), e);
    OutAfter(Run(before), e);
  }

  lemma PaceAfterFailure(events: seq<Event>, i: nat)
    requires Monotone(events) && i < |events|
    requires var before, e := events[..|events| - 1], events[|events| - 1];
      Finishes(Run(before), e) && e.result.Failure?
    ensures OneFails(PaceOf(events[..|events| - 1], i), PaceOf(events, i), events[|events| - 1].now)
  {
    var before, e := events[..|events| - 1], events[|events| - 1];
    FailureCounted(events, i);
    OneMoreCall(RefRun(before).calls, CallEnd(true, e.now));
  }

  lemma PaceAfterOther(events: seq<Event>, i: nat)
    requires Monotone(events) && i < |events| && SuccessFree(events, i)
    requires var before, e := events[..|events| - 1], events[|events| - 1];
      !(Finishes(Run(before), e) && e.result.Failure?)
    ensures NoneFails(PaceOf(events[..|events| - 1], i), PaceOf(events, i))
  {
    var before, e := events[..|events| - 1], events[|events| - 1];
    RunRefines(before);
    CallsGrow(RefRun(before), Run(before), e);
    OutAfter(Run(before), e);
    if OutputAt(events, |before|) == Posted {
      PostsWaitOutTheBreaker(events, |before|);
    }
  }

  lemma PaceBegins(events: seq<Event>, n: nat, start: real)
    requires AtMostOut(events, n)
    ensures Paced(PaceOf(events, |events|), Streak(RefRun(events).calls), n, 0, 0, start)
  {
  }

  lemma {:induction false} StaysPaced(events: seq<Event>, i: nat, n: nat, from: nat) returns (period: nat, base: nat)
    requires Monotone(events) && AtMostOut(events, n) && i < |events| && SuccessFree(events, i)
    requires from == Streak(RefRun(events[..i]).calls)
    ensures Paced(PaceOf(events, i), from, n, period, base, events[i].now)
    decreases |events|
  {
    var before, e, start := events[..|events| - 1], events[|events| - 1], events[i].now;
    assert before[..i] == events[..i];
    if i == |before| {
      assert before[..i] == before;
      PaceBegins(before, n, start);
      period, base := 0, 0;
    } else {
      period, base := StaysPaced(before, i, n, from);
    }
    TimesAfter(events, i);
    if Finishes(Run(before), e) && e.result.Failure? {
      PaceAfterFailure(events, i);
      PacedFailure(PaceOf(before, i), PaceOf(events, i), from, n, period, base, e.now, start);
    } else {
      PaceAfterOther(events, i);
      period, base := PacedOther(PaceOf(before, i), PaceOf(events, i), from, n, period, base, start);
    }
  }

  lemma EndsAfter(events: seq<Event>, i: nat)
    requires Monotone(events) && i < |events|
    ensures EndTime(events) >= events[i].now
  {
    TimesAfter(events, i);
    PrefixMonotone(events, |events| - 1);
  }

  /** With at most n POSTs out at any moment, a stretch shorter than `periods` times 30 s without a success holds at
      most (n + 4) * periods failed POSTs. */
  lemma FailuresWithin(events: seq<Event>, i: nat, n: nat, periods: nat)
    requires Monotone(events) && AtMostOut(events, n) && i < |events| && SuccessFree(events, i)
    requires EndTime(events) < events[i].now + CB_RESET_AFTER * periods as real
    ensures FailedPosts(events, i) <= (n + 4) * periods
  {
    var from := Streak(RefRun(events[..i]).calls);
    var period, base := StaysPaced(events, i, n, from);
    EndsAfter(events, i);
    PacedBudget(PaceOf(events, i), from, n, period, base, events[i].now, periods);
  }

  /** With at most n POSTs out at any moment, T seconds without a success hold at most (n + 4) * (floor(T / 30) + 1)
      failed POSTs. */
  lemma FailureBudget(events: seq<Event>, i: nat, n: nat)
    requires Monotone(events) && AtMostOut(events, n) && i < |events| && SuccessFree(events, i)
    ensures FailedPosts(events, i) <= (n + 4) * (((EndTime(events) - events[i].now) / 30.0).Floor + 1)
  {
    var time := EndTime(events) - events[i].now;
    EndsAfter(events, i);
    FloorBelow(time);
    FailuresWithin(events, i, n, (time / CB_RESET_AFTER).Floor + 1);
  }

  /** What the sweep is for: the cache never holds more than its limit unless every entry in it is still good. */
  lemma SweptCacheIsFresh(g: Guard, key: string, payload: Payload, stored: real, swept: real)
    ensures var cache := CacheSet(g, key, payload, stored, swept).cache;
      |cache| <= 2000 || forall k :: k in cache ==> swept <= cache[k].expiresAt
  {
  }
}
