/** The request-body gate of apps/api/app/main.py: route limits, the shared counter of undeclared-length readers, and
    the bodies it caches, for requests that interleave at every chunk. */
module BodyLimit {
  import opened JsonTree
  import opened Prelude

  type Byte = b: int | 0 <= b < 256
  type Bytes = seq<Byte>

  const MAX_BODY_BYTES: nat := 10 * 1024 * 1024
  const MULTIPART_OVERHEAD_BYTES: nat := 1024 * 1024
  const MAX_CHUNKED_BODY_READERS: nat := 20

  /** `_request_body_limit`: the two artifact routes may have a limit of their own. */
  function RouteLimit(artifactRoute: bool, maxArtifactBytes: int): nat {
    if artifactRoute && maxArtifactBytes > 0 then maxArtifactBytes + MULTIPART_OVERHEAD_BYTES else MAX_BODY_BYTES
  }

  function LargestLimit(maxArtifactBytes: int): nat {
    if maxArtifactBytes > 0 && maxArtifactBytes + MULTIPART_OVERHEAD_BYTES > MAX_BODY_BYTES
    then maxArtifactBytes + MULTIPART_OVERHEAD_BYTES else MAX_BODY_BYTES
  }

  /** The Content-Length header: missing, not a number, or the number it declares (of either sign). */
  datatype ContentLength = Missing | NotANumber | Declared(n: int)

  datatype Rejection = BadQuery | TooLarge | Busy | ClientGone | NulInJson

  /** Where a request is. `PassedOn` carries the body cached for the route, if the gate read it. */
  datatype Phase =
    | ReadingJson
    | ReadingChunked
    | PassedOn(cached: Option<Bytes>)
    | Rejected(why: Rejection)
    | Raised

  /** `chunks` and `total` are the gate's locals; `stream` is everything the client has sent. */
  datatype Request = Request(limit: nat, declared: ContentLength, isJson: bool, phase: Phase, chunks: seq<Bytes>,
                             total: nat, stream: seq<Bytes>)

  /** The counter, and the requests in order of arrival. */
  datatype Server = Server(readers: int, requests: seq<Request>)

  /** `json` is what decoding the cached body gives (null when it does not decode). */
  datatype Event =
    | Arrive(badQuery: bool, artifactRoute: bool, length: ContentLength, isJson: bool)
    | Chunk(id: nat, bytes: Bytes)
    | EndOfStream(id: nat, json: Json)
    | Disconnect(id: nat)
    | Fail(id: nat)

  function Join(chunks: seq<Bytes>): Bytes {
    if chunks == [] then [] else Join(chunks[..|chunks| - 1]) + chunks[|chunks| - 1]
  }

  predicate Reading(p: Phase) {
    p.ReadingJson? || p.ReadingChunked?
  }

  function Admit(e: Event, readers: int, maxArtifactBytes: int): Phase
    requires e.Arrive?
  {
    if e.badQuery then Rejected(BadQuery)
    else if e.length.Declared? && e.length.n > RouteLimit(e.artifactRoute, maxArtifactBytes) then Rejected(TooLarge)
    else if e.isJson then ReadingJson
    else if e.length.Declared? then PassedOn(None)
    else if readers >= MAX_CHUNKED_BODY_READERS then Rejected(Busy)
    else ReadingChunked
  }

  /** A reading request leaves the section: its chunks are released, and the `finally` gives the reader back. */
  function Leave(s: Server, id: nat, r: Request, p: Phase): Server
    requires id < |s.requests|
  {
    Server(if s.requests[id].phase.ReadingChunked? then s.readers - 1 else s.readers,
           s.requests[id := r.(phase := p, chunks := [], total := 0)])
  }

  ghost function Step(s: Server, e: Event, maxArtifactBytes: int): Server {
    if e.Arrive? then
      var p := Admit(e, s.readers, maxArtifactBytes);
      Server(if p.ReadingChunked? then s.readers + 1 else s.readers,
             s.requests + [Request(RouteLimit(e.artifactRoute, maxArtifactBytes), e.length, e.isJson, p, [], 0, [])])
    else if e.id >= |s.requests| || !Reading(s.requests[e.id].phase) then s
    else
      var r := s.requests[e.id];
      match e
      case Chunk(id, bytes) =>
        var got := r.(stream := r.stream + [bytes]);
        if r.total + |bytes| > r.limit then Leave(s, id, got, Rejected(TooLarge))
        else s.(requests := s.requests[id := got.(chunks := r.chunks + [bytes], total := r.total + |bytes|)])
      case EndOfStream(id, json) =>
        Leave(s, id, r, if r.phase.ReadingJson? && HasNul(json) then Rejected(NulInJson)
                        else PassedOn(Some(Join(r.chunks))))
      case Disconnect(id) => Leave(s, id, r, Rejected(ClientGone))
      case Fail(id) => Leave(s, id, r, Raised)
  }

  ghost function Run(events: seq<Event>, maxArtifactBytes: int): Server {
    if events == [] then Server(0, [])
    else Step(Run(events[..|events| - 1], maxArtifactBytes), events[|events| - 1], maxArtifactBytes)
  }

  // ---- What every interleaving keeps ----

  function ChunkedReaders(requests: seq<Request>): nat {
    if requests == [] then 0
    else ChunkedReaders(requests[..|requests| - 1]) + if requests[|requests| - 1].phase.ReadingChunked? then 1 else 0
  }

  /** Bytes the gate holds in chunk lists of undeclared-length readers. */
  function Retained(requests: seq<Request>): nat {
    if requests == [] then 0
    else
      var r := requests[|requests| - 1];
      Retained(requests[..|requests| - 1]) + if r.phase.ReadingChunked? then |Join(r.chunks)| else 0
  }

  ghost predicate Sound(r: Request, maxArtifactBytes: int) {
    && r.limit <= LargestLimit(maxArtifactBytes)
    && (Reading(r.phase) ==> r.chunks == r.stream && r.total == |Join(r.stream)| <= r.limit)
    && (Reading(r.phase) ==> (r.phase.ReadingJson? <==> r.isJson))
    && (r.isJson && r.phase.PassedOn? ==> r.phase.cached.Some?)
    && (!Reading(r.phase) ==> r.chunks == [])
    && (r.phase.PassedOn? && r.phase.cached.Some? ==>
          r.phase.cached == Some(Join(r.stream)) && |Join(r.stream)| <= r.limit)
    && (r.phase.PassedOn? && r.phase.cached.None? ==> r.declared.Declared? && r.declared.n <= r.limit)
    && (r.phase == Rejected(TooLarge) ==>
          (r.declared.Declared? && r.declared.n > r.limit) || |Join(r.stream)| > r.limit)
  }

  ghost predicate Inv(s: Server, maxArtifactBytes: int) {
    && s.readers == ChunkedReaders(s.requests) <= MAX_CHUNKED_BODY_READERS
    && forall i :: 0 <= i < |s.requests| ==> Sound(s.requests[i], maxArtifactBytes)
  }

  lemma ReadersSnoc(requests: seq<Request>, r: Request)
    ensures ChunkedReaders(requests + [r]) == ChunkedReaders(requests) + if r.phase.ReadingChunked? then 1 else 0
  {
    assert (requests + [r])[..|requests|] == requests;
  }

  lemma {:induction false} ReadersUpdate(requests: seq<Request>, i: nat, r: Request)
    requires i < |requests|
    ensures ChunkedReaders(requests[i := r]) + (if requests[i].phase.ReadingChunked? then 1 else 0)
         == ChunkedReaders(requests) + if r.phase.ReadingChunked? then 1 else 0
    decreases |requests|
  {
    var n := |requests| - 1;
    if i < n {
      ReadersUpdate(requests[..n], i, r);
      assert requests[i := r][..n] == requests[..n][i := r];
    } else {
      assert requests[i := r][..n] == requests[..n];
    }
  }

  lemma JoinSnoc(chunks: seq<Bytes>, b: Bytes)
    ensures Join(chunks + [b]) == Join(chunks) + b
  {
    assert (chunks + [b])[..|chunks|] == chunks;
  }

  lemma LimitIsBounded(artifactRoute: bool, maxArtifactBytes: int)
    ensures RouteLimit(artifactRoute, maxArtifactBytes) <= LargestLimit(maxArtifactBytes)
  {
  }

  lemma ArrivalKeepsInv(s: Server, e: Event, maxArtifactBytes: int)
    requires Inv(s, maxArtifactBytes) && e.Arrive?
    ensures Inv(Step(s, e, maxArtifactBytes), maxArtifactBytes)
  {
    var s' := Step(s, e, maxArtifactBytes);
    var r := s'.requests[|s.requests|];
    ReadersSnoc(s.requests, r);
    LimitIsBounded(e.artifactRoute, maxArtifactBytes);
    assert Join([]) == [];
    assert Sound(r, maxArtifactBytes);
  }

  /** A request that changes soundly, with the counter following its phase, keeps the invariant. */
  lemma ChangeKeepsInv(s: Server, s': Server, id: nat, maxArtifactBytes: int)
    requires Inv(s, maxArtifactBytes) && id < |s.requests| == |s'.requests|
    requires s'.requests == s.requests[id := s'.requests[id]] && Sound(s'.requests[id], maxArtifactBytes)
    requires s.requests[id].phase.ReadingChunked? || !s'.requests[id].phase.ReadingChunked?
    requires s'.readers == s.readers - (if s.requests[id].phase.ReadingChunked? then 1 else 0)
                                     + (if s'.requests[id].phase.ReadingChunked? then 1 else 0)
    ensures Inv(s', maxArtifactBytes)
  {
    ReadersUpdate(s.requests, id, s'.requests[id]);
  }

  lemma ChunkKept(r: Request, bytes: Bytes, maxArtifactBytes: int)
    requires Sound(r, maxArtifactBytes) && Reading(r.phase) && r.total + |bytes| <= r.limit
    ensures var got := r.(stream := r.stream + [bytes], chunks := r.chunks + [bytes], total := r.total + |bytes|);
      Sound(got, maxArtifactBytes)
  {
    JoinSnoc(r.stream, bytes);
  }

  lemma ChunkRefused(r: Request, bytes: Bytes, maxArtifactBytes: int)
    requires Sound(r, maxArtifactBytes) && Reading(r.phase) && r.total + |bytes| > r.limit
    ensures var got := r.(stream := r.stream + [bytes], phase := Rejected(TooLarge), chunks := [], total := 0);
      Sound(got, maxArtifactBytes)
  {
    JoinSnoc(r.stream, bytes);
  }

  lemma ChunkKeepsInv(s: Server, id: nat, bytes: Bytes, maxArtifactBytes: int)
    requires Inv(s, maxArtifactBytes) && id < |s.requests| && Reading(s.requests[id].phase)
    ensures Inv(Step(s, Chunk(id, bytes), maxArtifactBytes), maxArtifactBytes)
  {
    var r := s.requests[id];
    if r.total + |bytes| > r.limit {
      ChunkRefused(r, bytes, maxArtifactBytes);
    } else {
      ChunkKept(r, bytes, maxArtifactBytes);
    }
    ChangeKeepsInv(s, Step(s, Chunk(id, bytes), maxArtifactBytes), id, maxArtifactBytes);
  }

  lemma EndKeepsInv(s: Server, e: Event, maxArtifactBytes: int)
    requires Inv(s, maxArtifactBytes) && !e.Arrive? && !e.Chunk?
    requires e.id < |s.requests| && Reading(s.requests[e.id].phase)
    ensures Inv(Step(s, e, maxArtifactBytes), maxArtifactBytes)
  {
    assert Sound(s.requests[e.id], maxArtifactBytes);
    ChangeKeepsInv(s, Step(s, e, maxArtifactBytes), e.id, maxArtifactBytes);
  }

  lemma StepKeepsInv(s: Server, e: Event, maxArtifactBytes: int)
    requires Inv(s, maxArtifactBytes)
    ensures Inv(Step(s, e, maxArtifactBytes), maxArtifactBytes)
  {
    if e.Arrive? {
      ArrivalKeepsInv(s, e, maxArtifactBytes);
    } else if e.id < |s.requests| && Reading(s.requests[e.id].phase) {
      if e.Chunk? {
        ChunkKeepsInv(s, e.id, e.bytes, maxArtifactBytes);
      } else {
        EndKeepsInv(s, e, maxArtifactBytes);
      }
    }
  }

  lemma {:induction false} RunKeepsInv(events: seq<Event>, maxArtifactBytes: int)
    ensures Inv(Run(events, maxArtifactBytes), maxArtifactBytes)
    decreases |events|
  {
    if events != [] {
      RunKeepsInv(events[..|events| - 1], maxArtifactBytes);
      StepKeepsInv(Run(events[..|events| - 1], maxArtifactBytes), events[|events| - 1], maxArtifactBytes);
    }
  }

  lemma {:induction false} RetainedBound(requests: seq<Request>, maxArtifactBytes: int)
    requires forall i :: 0 <= i < |requests| ==> Sound(requests[i], maxArtifactBytes)
    ensures Retained(requests) <= ChunkedReaders(requests) * LargestLimit(maxArtifactBytes)
    decreases |requests|
  {
    if requests != [] {
      var n := |requests| - 1;
      assert Sound(requests[n], maxArtifactBytes);
      RetainedBound(requests[..n], maxArtifactBytes);
      OneMore(ChunkedReaders(requests[..n]), LargestLimit(maxArtifactBytes));
    }
  }

  lemma OneMore(a: nat, c: nat)
    ensures (a + 1) * c == a * c + c
  {
  }

  lemma Scale(a: nat, b: nat, c: nat)
    requires a <= b
    ensures a * c <= b * c
  {
  }

  /** In every interleaving the counter is the number of requests inside the undeclared-length section, never above 20,
      and their chunks together stay within 20 times the largest route limit. */
  lemma ReadersBounded(events: seq<Event>, maxArtifactBytes: int)
    ensures var s := Run(events, maxArtifactBytes);
      && s.readers == ChunkedReaders(s.requests) && 0 <= s.readers <= MAX_CHUNKED_BODY_READERS
      && Retained(s.requests) <= MAX_CHUNKED_BODY_READERS * LargestLimit(maxArtifactBytes)
  {
    RunKeepsInv(events, maxArtifactBytes);
    var s := Run(events, maxArtifactBytes);
    RetainedBound(s.requests, maxArtifactBytes);
    Scale(ChunkedReaders(s.requests), MAX_CHUNKED_BODY_READERS, LargestLimit(maxArtifactBytes));
  }

  lemma {:induction false} NoReadersWhenIdle(requests: seq<Request>)
    ensures ChunkedReaders(requests) == 0 <==> forall i :: 0 <= i < |requests| ==> !requests[i].phase.ReadingChunked?
    decreases |requests|
  {
    if requests != [] {
      var n := |requests| - 1;
      NoReadersWhenIdle(requests[..n]);
      assert forall i :: 0 <= i < n ==> requests[..n][i] == requests[i];
    }
  }

  /** Every way out gives the reader back: when nobody reads, the counter is 0. */
  lemma ReadersReturn(events: seq<Event>, maxArtifactBytes: int)
    ensures var s := Run(events, maxArtifactBytes);
      s.readers == 0 <==> forall i :: 0 <= i < |s.requests| ==> !s.requests[i].phase.ReadingChunked?
  {
    RunKeepsInv(events, maxArtifactBytes);
    NoReadersWhenIdle(Run(events, maxArtifactBytes).requests);
  }

  /** A cached body is exactly what the client sent, and within the route's limit; a body that was not cached is no
      JSON, and had its length declared within the limit; and a 413 is only ever sent to a client that declared or sent
      too much. */
  lemma BodiesExact(events: seq<Event>, maxArtifactBytes: int, id: nat)
    requires id < |Run(events, maxArtifactBytes).requests|
    ensures var r := Run(events, maxArtifactBytes).requests[id];
      && (r.phase.PassedOn? && r.phase.cached.Some? ==>
            r.phase.cached == Some(Join(r.stream)) && |Join(r.stream)| <= r.limit)
      && (r.phase.PassedOn? && r.phase.cached.None? ==>
            !r.isJson && r.declared.Declared? && r.declared.n <= r.limit)
      && (!Reading(r.phase) ==> r.chunks == [])
      && (r.phase == Rejected(TooLarge) ==>
            (r.declared.Declared? && r.declared.n > r.limit) || |Join(r.stream)| > r.limit)
  {
    RunKeepsInv(events, maxArtifactBytes);
  }

  // ---- The verdicts ----

  /** The limit of a route: of an artifact route with a limit of its own that and a mebibyte, else ten mebibytes. */
  function Allowed(artifactRoute: bool, maxArtifactBytes: int): int {
    if artifactRoute && maxArtifactBytes > 0 then maxArtifactBytes + 1048576 else 10485760
  }

  /** Each outcome of an arrival, exactly: 400 for a bad query; else 413 for a declared length over the limit; else a
      JSON body is read; else a body of undeclared length is read, or refused with a 503 when twenty requests are being
      read already; and only a body of declared length within the limit that is not JSON is passed on unread. */
  lemma ArrivalVerdicts(events: seq<Event>, e: Event, maxArtifactBytes: int)
    requires e.Arrive?
    ensures var s, s' := Run(events, maxArtifactBytes), Run(events + [e], maxArtifactBytes);
      var busy := |set i | 0 <= i < |s.requests| && s.requests[i].phase.ReadingChunked?| == 20;
      var over := e.length.Declared? && e.length.n > Allowed(e.artifactRoute, maxArtifactBytes);
      && |s'.requests| == |s.requests| + 1 && s'.requests[..|s.requests|] == s.requests
      && var r := s'.requests[|s.requests|];
      && r.limit == Allowed(e.artifactRoute, maxArtifactBytes) && r.declared == e.length && r.isJson == e.isJson
      && r.stream == [] && r.chunks == []
      && (r.phase == Rejected(BadQuery) <==> e.badQuery)
      && (r.phase == Rejected(TooLarge) <==> !e.badQuery && over)
      && (r.phase == ReadingJson <==> !e.badQuery && !over && e.isJson)
      && (r.phase == ReadingChunked <==> !e.badQuery && !e.isJson && !e.length.Declared? && !busy)
      && (r.phase == Rejected(Busy) <==> !e.badQuery && !e.isJson && !e.length.Declared? && busy)
      && (r.phase == PassedOn(None) <==> !e.badQuery && !e.isJson && e.length.Declared? && !over)
  {
    assert (events + [e])[..|events|] == events;
    RunKeepsInv(events, maxArtifactBytes);
    ReadersAre(Run(events, maxArtifactBytes).requests);
  }

  /** The counting function, as the size of a set. */
  lemma {:induction false} ReadersAre(requests: seq<Request>)
    ensures ChunkedReaders(requests) == |ReaderIds(requests)|
    ensures ReaderIds(requests) == set i | 0 <= i < |requests| && requests[i].phase.ReadingChunked?
    decreases |requests|
  {
    if requests == [] {
      assert ReaderIds(requests) == {};
    } else {
      var n := |requests| - 1;
      ReadersAre(requests[..n]);
      OneMoreReader(requests, n);
    }
    assert ReaderIds(requests) == set i | 0 <= i < |requests| && requests[i].phase.ReadingChunked?;
  }

  function ReaderIds(requests: seq<Request>): set<int> {
    set i | 0 <= i < |requests| && requests[i].phase.ReadingChunked?
  }

  lemma OneMoreReader(requests: seq<Request>, n: nat)
    requires n == |requests| - 1
    ensures n !in ReaderIds(requests[..n])
    ensures ReaderIds(requests) ==
            if requests[n].phase.ReadingChunked? then ReaderIds(requests[..n]) + {n} else ReaderIds(requests[..n])
  {
  }

  /** The 503 comes exactly when twenty other requests are inside the section. */
  lemma BusyExactlyAtTwenty(events: seq<Event>, e: Event, maxArtifactBytes: int)
    requires e.Arrive?
    ensures var s, s' := Run(events, maxArtifactBytes), Run(events + [e], maxArtifactBytes);
      |s'.requests| == |s.requests| + 1 &&
      (s'.requests[|s.requests|].phase == Rejected(Busy) <==>
         !e.badQuery && !e.isJson && !e.length.Declared? && ChunkedReaders(s.requests) == 20)
  {
    assert (events + [e])[..|events|] == events;
    RunKeepsInv(events, maxArtifactBytes);
  }

  /** While a body is read, the next chunk is refused exactly when everything sent with it exceeds the limit; and when
      the stream ends, a JSON document is refused exactly when it holds a NUL, any other body is cached as sent. */
  lemma ReadVerdicts(events: seq<Event>, id: nat, bytes: Bytes, json: Json, maxArtifactBytes: int)
    requires id < |Run(events, maxArtifactBytes).requests| && Reading(Run(events, maxArtifactBytes).requests[id].phase)
    ensures var r := Run(events, maxArtifactBytes).requests[id];
      var chunk := Run(events + [Chunk(id, bytes)], maxArtifactBytes).requests;
      var end := Run(events + [EndOfStream(id, json)], maxArtifactBytes).requests;
      && id < |chunk| && id < |end|
      && chunk[id].phase == (if |Join(r.stream)| + |bytes| > r.limit then Rejected(TooLarge) else r.phase)
      && end[id].phase == (if r.phase.ReadingJson? && HasNul(json) then Rejected(NulInJson)
                           else PassedOn(Some(Join(r.stream))))
  {
    RunKeepsInv(events, maxArtifactBytes);
    var s := Run(events, maxArtifactBytes);
    RunSnoc(events, Chunk(id, bytes), maxArtifactBytes);
    RunSnoc(events, EndOfStream(id, json), maxArtifactBytes);
    StepVerdicts(s, id, bytes, json, maxArtifactBytes);
  }

  lemma RunSnoc(events: seq<Event>, e: Event, maxArtifactBytes: int)
    ensures Run(events + [e], maxArtifactBytes) == Step(Run(events, maxArtifactBytes), e, maxArtifactBytes)
  {
    assert (events + [e])[..|events|] == events;
  }

  lemma StepVerdicts(s: Server, id: nat, bytes: Bytes, json: Json, maxArtifactBytes: int)
    requires Inv(s, maxArtifactBytes) && id < |s.requests| && Reading(s.requests[id].phase)
    ensures var r := s.requests[id];
      var chunk := Step(s, Chunk(id, bytes), maxArtifactBytes).requests;
      var end := Step(s, EndOfStream(id, json), maxArtifactBytes).requests;
      && id < |chunk| && id < |end|
      && chunk[id].phase == (if |Join(r.stream)| + |bytes| > r.limit then Rejected(TooLarge) else r.phase)
      && end[id].phase == (if r.phase.ReadingJson? && HasNul(json) then Rejected(NulInJson)
                           else PassedOn(Some(Join(r.stream))))
  {
    assert Sound(s.requests[id], maxArtifactBytes);
  }

  /** How the reading of a body ends otherwise: a client that hangs up gets a 499, another exception is raised. Events
      for requests that are not being read change nothing, and no event changes another request. */
  lemma OtherEnds(events: seq<Event>, e: Event, maxArtifactBytes: int)
    requires !e.Arrive?
    ensures var s, s' := Run(events, maxArtifactBytes), Run(events + [e], maxArtifactBytes);
      && |s'.requests| == |s.requests|
      && (forall i :: 0 <= i < |s.requests| && i != e.id ==> s'.requests[i] == s.requests[i])
      && (e.id < |s.requests| && !Reading(s.requests[e.id].phase) ==> s'.requests[e.id] == s.requests[e.id])
      && (e.id < |s.requests| && Reading(s.requests[e.id].phase) ==>
            && (e.Disconnect? ==> s'.requests[e.id].phase == Rejected(ClientGone))
            && (e.Fail? ==> s'.requests[e.id].phase == Raised)
            && s'.requests[e.id].isJson == s.requests[e.id].isJson && s'.requests[e.id].limit == s.requests[e.id].limit
            && s'.requests[e.id].declared == s.requests[e.id].declared
            && s'.requests[e.id].stream == s.requests[e.id].stream + (if e.Chunk? then [e.bytes] else []))
  {
    assert (events + [e])[..|events|] == events;
  }

  /** An arrival passes no JSON request on: one that is passed on was so before. */
  lemma JsonWaits(events: seq<Event>, e: Event, maxArtifactBytes: int, id: nat)
    requires e.Arrive? && id < |Run(events + [e], maxArtifactBytes).requests|
    requires var r := Run(events + [e], maxArtifactBytes).requests[id]; r.isJson && r.phase.PassedOn?
    ensures var s := Run(events, maxArtifactBytes);
      id < |s.requests| && Run(events + [e], maxArtifactBytes).requests[id] == s.requests[id]
  {
    ArrivalVerdicts(events, e, maxArtifactBytes);
    var s, s' := Run(events, maxArtifactBytes), Run(events + [e], maxArtifactBytes);
    assert forall i :: 0 <= i < |s.requests| ==> s'.requests[..|s.requests|][i] == s'.requests[i];
    RunKeepsInv(events + [e], maxArtifactBytes);
    assert Sound(s'.requests[id], maxArtifactBytes);
  }

  /** A request that came as JSON is passed on only after the end of its stream, with its whole body cached, and with
      what that body decodes to free of NUL. */
  lemma {:induction false} JsonIsScanned(events: seq<Event>, maxArtifactBytes: int, id: nat) returns (k: nat)
    requires id < |Run(events, maxArtifactBytes).requests|
    requires var r := Run(events, maxArtifactBytes).requests[id]; r.isJson && r.phase.PassedOn?
    ensures k < |events| && events[k].EndOfStream? && events[k].id == id && !HasNul(events[k].json)
    ensures var r := Run(events, maxArtifactBytes).requests[id];
      r.phase == PassedOn(Some(Join(r.stream))) && |Join(r.stream)| <= r.limit
    decreases |events|
  {
    var n := |events| - 1;
    var before, e := events[..n], events[n];
    assert before + [e] == events;
    RunKeepsInv(events, maxArtifactBytes);
    RunKeepsInv(before, maxArtifactBytes);
    var s := Run(before, maxArtifactBytes);
    assert id < |s.requests| ==> Sound(s.requests[id], maxArtifactBytes);
    assert Sound(Run(events, maxArtifactBytes).requests[id], maxArtifactBytes);
    if e.Arrive? {
      JsonWaits(before, e, maxArtifactBytes, id);
      k := JsonIsScanned(before, maxArtifactBytes, id);
    } else {
      OtherEnds(before, e, maxArtifactBytes);
      if s.requests[id].phase.PassedOn? {
        k := JsonIsScanned(before, maxArtifactBytes, id);
      } else {
        k := n;
      }
    }
  }

  // ---- The middleware's state ----

  class BodyGate {
    const maxArtifactBytes: int
    var chunkedBodyReaders: int
    var requests: seq<Request>

    constructor (maxArtifactBytes: int)
      ensures this.maxArtifactBytes == maxArtifactBytes && chunkedBodyReaders == 0 && requests == []
    {
      this.maxArtifactBytes, chunkedBodyReaders, requests := maxArtifactBytes, 0, [];
    }

    ghost function Now(): Server
      reads this
    {
      Server(chunkedBodyReaders, requests)
    }

    /** Everything up to the first await of the body stream. */
    method Arrived(e: Event)
      requires e.Arrive?
      modifies this
      ensures Now() == Step(old(Now()), e, maxArtifactBytes)
    {
      var limit := RouteLimit(e.artifactRoute, maxArtifactBytes);
      var phase := PassedOn(None);
      if e.badQuery {
        phase := Rejected(BadQuery);
      } else if e.length.Declared? && e.length.n > limit {
        phase := Rejected(TooLarge);
      } else if e.isJson {
        phase := ReadingJson;
      } else if !e.length.Declared? {
        if chunkedBodyReaders >= MAX_CHUNKED_BODY_READERS {
          phase := Rejected(Busy);
        } else {
          chunkedBodyReaders := chunkedBodyReaders + 1;
          phase := ReadingChunked;
        }
      }
      requests := requests + [Request(limit, e.length, e.isJson, phase, [], 0, [])];
    }

    method Exit(id: nat, r: Request, phase: Phase)
      requires id < |requests|
      modifies this
      ensures Now() == Leave(old(Now()), id, r, phase)
    {
      if requests[id].phase.ReadingChunked? {
        chunkedBodyReaders := chunkedBodyReaders - 1;
      }
      requests := requests[id := r.(phase := phase, chunks := [], total := 0)];
    }

    method GotChunk(id: nat, bytes: Bytes)
      requires id < |requests| && Reading(requests[id].phase)
      modifies this
      ensures Now() == Step(old(Now()), Chunk(id, bytes), maxArtifactBytes)
    {
      var r := requests[id];
      r := r.(stream := r.stream + [bytes]);
      var total := r.total + |bytes|;
      if total > r.limit {
        Exit(id, r, Rejected(TooLarge));
        return;
      }
      requests := requests[id := r.(chunks := r.chunks + [bytes], total := total)];
    }

    /** The client hung up, or something else raised inside the read. */
    method Broke(id: nat, gone: bool)
      requires id < |requests| && Reading(requests[id].phase)
      modifies this
      ensures Now() == Step(old(Now()), if gone then Disconnect(id) else Fail(id), maxArtifactBytes)
    {
      Exit(id, requests[id], if gone then Rejected(ClientGone) else Raised);
    }

    /** The stream is over: `b"".join(chunks)` is cached, and decoded JSON is scanned for NUL. */
    method Ended(id: nat, json: Json)
      requires id < |requests| && Reading(requests[id].phase)
      modifies this
      ensures Now() == Step(old(Now()), EndOfStream(id, json), maxArtifactBytes)
    {
      var r := requests[id];
      var body: Bytes := [];
      for i := 0 to |r.chunks|
        invariant body == Join(r.chunks[..i])
      {
        assert r.chunks[..i + 1][..i] == r.chunks[..i];
        body := body + r.chunks[i];
      }
      assert r.chunks[..|r.chunks|] == r.chunks;
      if r.phase.ReadingJson? {
        var nul := JsonContainsNul(json);
        if nul {
          Exit(id, r, Rejected(NulInJson));
          return;
        }
      }
      Exit(id, r, PassedOn(Some(body)));
    }
  }
}
