/** Startup recovery of apps/api/app/main.py: two transactions that retire the runs a dead process left behind. */
module StartupRecovery {
  import opened Prelude

  datatype RunRow = RunRow(status: string, runnerPool: Option<string>, finishedAt: Option<int>)

  datatype QueueRow = QueueRow(runId: string, status: string, leasedBy: Option<string>, leaseToken: Option<string>,
                               leaseExpiresAt: Option<int>)

  datatype Tables = Tables(runs: map<string, RunRow>, queue: map<string, QueueRow>)

  const CANCELLED := "cancelled"
  const TERMINAL: set<string> := {"cancelled", "error", "success"}

  /** Running or paused, and not bound to a remote pool: nothing can resume it after a restart. */
  predicate Interrupted(r: RunRow) {
    r.status in {"running", "waiting"} && r.runnerPool.None?
  }

  function CancelRun(r: RunRow, now: int): RunRow {
    r.(status := CANCELLED, finishedAt := Some(now))
  }

  function CancelEntry(e: QueueRow): QueueRow {
    QueueRow(e.runId, CANCELLED, None, None, None)
  }

  predicate OfInterrupted(t: Tables, e: QueueRow) {
    e.runId in t.runs && Interrupted(t.runs[e.runId])
  }

  predicate Orphaned(t: Tables, e: QueueRow) {
    e.status == "running" && e.runId in t.runs && t.runs[e.runId].status in TERMINAL
  }

  /** The first transaction: cancel interrupted runs and their queue entries. */
  function CancelInterrupted(t: Tables, now: int): Tables {
    Tables(map id | id in t.runs :: if Interrupted(t.runs[id]) then CancelRun(t.runs[id], now) else t.runs[id],
           map id | id in t.queue :: if OfInterrupted(t, t.queue[id]) then CancelEntry(t.queue[id]) else t.queue[id])
  }

  /** The second: cancel entries still marked running for runs that are over. */
  function CancelOrphans(t: Tables): Tables {
    t.(queue := map id | id in t.queue :: if Orphaned(t, t.queue[id]) then CancelEntry(t.queue[id]) else t.queue[id])
  }

  function Recovered(t: Tables, now: int): Tables {
    CancelOrphans(CancelInterrupted(t, now))
  }

  function RunsCancelled(runs: map<string, RunRow>, ids: set<string>, now: int): map<string, RunRow> {
    map id | id in runs :: if id in ids then CancelRun(runs[id], now) else runs[id]
  }

  function EntriesCancelled(queue: map<string, QueueRow>, ids: set<string>): map<string, QueueRow> {
    map id | id in queue :: if id in ids then CancelEntry(queue[id]) else queue[id]
  }

  // ---- What recovery does to each row, in the columns ----

  /** In flight when the process died, with no remote pool to go on with it. */
  predicate LeftBehind(t: Tables, id: string) {
    id in t.runs && t.runs[id].status in {"running", "waiting"} && t.runs[id].runnerPool.None?
  }

  predicate Finished(t: Tables, id: string) {
    id in t.runs && t.runs[id].status in {"cancelled", "error", "success"}
  }

  /** Every run left behind is cancelled now and keeps its pool; every other run is as it was. */
  ghost predicate RunsRetired(before: Tables, after: Tables, now: int) {
    after.runs.Keys == before.runs.Keys &&
    forall id :: id in before.runs ==>
      if LeftBehind(before, id)
      then after.runs[id].status == "cancelled" && after.runs[id].finishedAt == Some(now)
           && after.runs[id].runnerPool == before.runs[id].runnerPool
      else after.runs[id] == before.runs[id]
  }

  /** Every entry of such a run, and if `orphans` every running entry of a finished run, is cancelled, without holder,
      token or expiry, and for the same run; every other entry is as it was. */
  ghost predicate EntriesRetired(before: Tables, after: Tables, orphans: bool) {
    after.queue.Keys == before.queue.Keys &&
    forall id :: id in before.queue ==>
      var e := before.queue[id];
      if LeftBehind(before, e.runId) || (orphans && e.status == "running" && Finished(before, e.runId))
      then after.queue[id].status == "cancelled" && after.queue[id].runId == e.runId
           && after.queue[id].leasedBy.None? && after.queue[id].leaseToken.None?
           && after.queue[id].leaseExpiresAt.None?
      else after.queue[id] == e
  }

  lemma FirstRetires(t: Tables, now: int)
    ensures RunsRetired(t, CancelInterrupted(t, now), now) && EntriesRetired(t, CancelInterrupted(t, now), false)
  {
  }

  /** An entry cancelled by the first transaction is not touched by the second. */
  lemma RecoveryRetires(t: Tables, now: int)
    ensures RunsRetired(t, Recovered(t, now), now) && EntriesRetired(t, Recovered(t, now), true)
  {
    var first := CancelInterrupted(t, now);
    FirstRetires(t, now);
    forall id | id in t.queue
      ensures OfInterrupted(t, t.queue[id]) ==> Recovered(t, now).queue[id] == first.queue[id]
      ensures !OfInterrupted(t, t.queue[id]) ==>
                (Orphaned(first, first.queue[id]) <==>
                 t.queue[id].status == "running" && Finished(t, t.queue[id].runId))
    {
    }
  }

  // ---- The routine ----

  /** Where, if anywhere, the database raises; the routine logs it and goes on without recovery. */
  datatype Fault = NoFault | InFirst | InSecond

  /** What is committed, what the open session has changed, and every committed state so far. */
  class RecoveryDb {
    var durable: Tables
    var working: Tables
    ghost var images: seq<Tables>

    constructor (t: Tables)
      ensures durable == working == t && images == [t]
    {
      durable, working, images := t, t, [t];
    }

    method Commit()
      modifies this
      ensures durable == working == old(working) && images == old(images) + [durable]
    {
      durable := working;
      images := images + [durable];
    }

    /** Closing a session without a commit throws its changes away. */
    method Rollback()
      modifies this`working
      ensures working == durable
    {
      working := durable;
    }

    method CancelRuns(ids: set<string>, now: int)
      requires ids <= working.runs.Keys
      modifies this`working
      ensures working == old(working).(runs := RunsCancelled(old(working).runs, ids, now))
    {
      var left := ids;
      while left != {}
        invariant left <= ids
        invariant working == old(working).(runs := RunsCancelled(old(working).runs, ids - left, now))
        decreases left
      {
        var id :| id in left;
        var run := working.runs[id];
        working := working.(runs := working.runs[id := run.(status := CANCELLED, finishedAt := Some(now))]);
        left := left - {id};
      }
      assert ids - {} == ids;
    }

    method CancelEntries(ids: set<string>)
      requires ids <= working.queue.Keys
      modifies this`working
      ensures working == old(working).(queue := EntriesCancelled(old(working).queue, ids))
    {
      var left := ids;
      while left != {}
        invariant left <= ids
        invariant working == old(working).(queue := EntriesCancelled(old(working).queue, ids - left))
        decreases left
      {
        var id :| id in left;
        var entry := working.queue[id];
        entry := entry.(status := CANCELLED, leasedBy := None);
        entry := entry.(leaseToken := None, leaseExpiresAt := None);
        working := working.(queue := working.queue[id := entry]);
        left := left - {id};
      }
      assert ids - {} == ids;
    }

    /** `_mark_interrupted_runs`: each transaction commits only when it found something. */
    method MarkInterruptedRuns(now: int, fault: Fault)
      requires working == durable
      modifies this
      ensures working == durable
      ensures durable == (match fault
                          case NoFault => Recovered(old(durable), now)
                          case InFirst => old(durable)
                          case InSecond => CancelInterrupted(old(durable), now))
      ensures fault == NoFault ==>
                RunsRetired(old(durable), durable, now) && EntriesRetired(old(durable), durable, true)
      ensures fault == InSecond ==>
                RunsRetired(old(durable), durable, now) && EntriesRetired(old(durable), durable, false)
      // A crash at any moment leaves one of three states.
      ensures |images| >= |old(images)| && images[..|old(images)|] == old(images)
      ensures forall i :: |old(images)| <= i < |images| ==>
                images[i] in {old(durable), CancelInterrupted(old(durable), now), Recovered(old(durable), now)}
    {
      RecoveryRetires(durable, now);
      FirstRetires(durable, now);
      var found := StageInterrupted(now);
      if fault == InFirst {
        Rollback();
        return;
      }
      if found {
        Commit();
      }
      found := StageOrphans();
      if fault == InSecond {
        Rollback();
        return;
      }
      if found {
        Commit();
      }
    }

    /** The first session's changes. */
    method StageInterrupted(now: int) returns (found: bool)
      requires working == durable
      modifies this`working
      ensures working == CancelInterrupted(durable, now) && (!found ==> working == durable)
    {
      var t := working;
      var runIds := set id | id in t.runs && Interrupted(t.runs[id]);
      var entryIds := set id | id in t.queue && t.queue[id].runId in runIds;
      found := runIds != {};
      if found {
        CancelRuns(runIds, now);
        CancelEntries(entryIds);
      }
      assert RunsCancelled(t.runs, runIds, now) == CancelInterrupted(t, now).runs;
      assert EntriesCancelled(t.queue, entryIds) == CancelInterrupted(t, now).queue;
      assert !found ==> CancelInterrupted(t, now) == t;
    }

    /** The second session's changes. */
    method StageOrphans() returns (found: bool)
      requires working == durable
      modifies this`working
      ensures working == CancelOrphans(durable) && (!found ==> working == durable)
    {
      var t := working;
      var orphanIds := set id | id in t.queue && Orphaned(t, t.queue[id]);
      found := orphanIds != {};
      if found {
        CancelEntries(orphanIds);
      }
      assert EntriesCancelled(t.queue, orphanIds) == CancelOrphans(t).queue;
      assert !found ==> CancelOrphans(t) == t;
    }
  }

  // ---- What recovery achieves ----

  /** Exactly which runs change: the interrupted ones, to cancelled now. None is left running or waiting. */
  lemma RunsAfterRecovery(t: Tables, now: int, id: string)
    requires id in t.runs
    ensures RunsRetired(t, Recovered(t, now), now)
    ensures LeftBehind(t, id) ==> Recovered(t, now).runs[id] == RunRow("cancelled", None, Some(now))
    ensures !LeftBehind(Recovered(t, now), id)
    ensures t.runs[id].runnerPool.Some? || Finished(t, id) ==> Recovered(t, now).runs[id] == t.runs[id]
  {
    RecoveryRetires(t, now);
  }

  /** Exactly which entries change: those of the runs it cancelled, and those that ran on for a finished run. Each is
      cancelled with its lease cleared, and no running entry refers to a finished run any more. */
  lemma EntriesAfterRecovery(t: Tables, now: int, id: string)
    requires id in t.queue
    ensures EntriesRetired(t, Recovered(t, now), true)
    ensures var e, after := t.queue[id], Recovered(t, now);
      && (LeftBehind(t, e.runId) || (e.status == "running" && Finished(t, e.runId)) ==>
            after.queue[id] == QueueRow(e.runId, "cancelled", None, None, None))
      && !(after.queue[id].status == "running" && Finished(after, e.runId))
  {
    RecoveryRetires(t, now);
  }

  /** Recovery is done once: a second start, whenever it comes, changes nothing. */
  lemma RecoveryIdempotent(t: Tables, now: int, later: int)
    ensures Recovered(Recovered(t, now), later) == Recovered(t, now)
  {
    var r := Recovered(t, now);
    assert CancelInterrupted(r, later) == r;
    assert CancelOrphans(r) == r;
  }

  ghost predicate SameButFinishTimes(a: Tables, b: Tables) {
    && a.queue == b.queue && a.runs.Keys == b.runs.Keys
    && forall id :: id in a.runs ==> a.runs[id] == b.runs[id].(finishedAt := a.runs[id].finishedAt)
  }

  /** A crash between the two commits, or before the first, is made good by the next start: the same statuses and
      leases, and after the first commit the same finish times too. */
  lemma RestartAfterCrash(t: Tables, now: int, later: int)
    ensures Recovered(CancelInterrupted(t, now), later) == Recovered(t, now)
    ensures SameButFinishTimes(Recovered(t, later), Recovered(t, now))
  {
    var first := CancelInterrupted(t, now);
    assert CancelInterrupted(first, later) == first;
  }

  // ---- Any history of starts ----

  /** One start of the process: when it happened, and where, if anywhere, recovery failed or the process died. */
  datatype Start = Start(now: int, fault: Fault)

  function AfterStart(t: Tables, s: Start): Tables {
    match s.fault
    case NoFault => Recovered(t, s.now)
    case InFirst => t
    case InSecond => CancelInterrupted(t, s.now)
  }

  function AfterStarts(t: Tables, starts: seq<Start>): Tables
    decreases |starts|
  {
    if starts == [] then t else AfterStarts(AfterStart(t, starts[0]), starts[1..])
  }

  /** However often the process dies in its recovery, the first start that gets through reaches the statuses and leases
      that one undisturbed start would have reached, and nothing later changes them. */
  lemma {:induction false} EveryHistoryRecovers(t: Tables, starts: seq<Start>, now: int)
    requires exists i :: 0 <= i < |starts| && starts[i].fault == NoFault
    ensures SameButFinishTimes(AfterStarts(t, starts), Recovered(t, now))
    decreases |starts|
  {
    var s, rest := starts[0], starts[1..];
    var next := AfterStart(t, s);
    var i :| 0 <= i < |starts| && starts[i].fault == NoFault;
    if s.fault == NoFault {
      RecoveredStays(t, s.now, rest);
      RestartAfterCrash(t, now, s.now);
    } else {
      assert rest[i - 1].fault == NoFault;
      EveryHistoryRecovers(next, rest, now);
      RestartAfterCrash(t, s.now, now);
      RestartAfterCrash(t, now, s.now);
    }
  }

  lemma {:induction false} RecoveredStays(t: Tables, now: int, starts: seq<Start>)
    ensures AfterStarts(Recovered(t, now), starts) == Recovered(t, now)
    decreases |starts|
  {
    if starts != [] {
      var r := Recovered(t, now);
      RecoveryIdempotent(t, now, starts[0].now);
      assert CancelInterrupted(r, starts[0].now) == r;
      RecoveredStays(t, now, starts[1..]);
    }
  }
}
