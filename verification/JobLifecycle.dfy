/** The audited facade of the job queue (teldrive_lab/job_lifecycle.py): one event per successful step. */
module JobLifecycle {
  import opened Base
  import opened Jobs
  import opened JobRuns

  datatype AuditEvent = AuditEvent(operation: string, job: Option<JobId>, result: string, code: Option<string>,
                                   count: nat)

  const RECOVERY := "JOB_LEASE_RECOVERY"

  /** The calls the facade offers. */
  predicate Offered(call: Call) {
    call.Enqueue? || call.Claim? || call.Complete? || call.Pause? || call.Resume? || call.Cancel? || call.Retry?
    || call.Recover?
  }

  function About(operation: string, id: JobId, result: string): AuditEvent {
    AuditEvent(operation, Some(id), result, None, 0)
  }

  /** What a call appends to the audit log: nothing when it raised, found nothing, or recovered nothing. */
  function Recorded(jobs: Table, e: Event): seq<AuditEvent>
    requires Offered(e.call)
  {
    if !Succeeds(jobs, e.call) then []
    else match e.call
      case Enqueue(id, _) => [About("JOB_ENQUEUE", id, "QUEUED")]
      case Claim(_, _, pick) => [About("JOB_CLAIM", pick.value, "RUNNING")]
      case Complete(id, _) => [About("JOB_COMPLETE", id, "COMPLETED")]
      case Pause(id, _) => [About("JOB_PAUSE", id, "PAUSED")]
      case Resume(id) => [About("JOB_RESUME", id, "QUEUED")]
      case Cancel(id) => [About("JOB_CANCEL", id, "CANCELLED")]
      case Retry(id, _, code, _, _) =>
        [AuditEvent("JOB_RETRY", Some(id), StateName(Write(jobs[id], e.call, e.now).state), Some(code), 0)]
      case Recover =>
        var count := |ExpiredIds(jobs, e.now)|;
        if count == 0 then [] else [AuditEvent(RECOVERY, None, "REQUEUED", None, count)]
  }

  class AuditedJobStore {
    const jobs: JobStore
    var events: seq<AuditEvent>

    constructor ()
      ensures fresh(jobs) && jobs.jobs == map[] && events == []
    {
      jobs := new JobStore();
      events := [];
    }

    method Enqueue(request: Request, given: Option<JobId>, uuid: JobId, now: Time) returns (r: Result<Job, Error>)
      modifies this, jobs
      ensures var e := Event(Call.Enqueue(if given.Some? && given.value != "" then given.value else uuid, request),
                             now);
              jobs.jobs == Apply(old(jobs.jobs), e) && events == old(events) + Recorded(old(jobs.jobs), e)
      ensures var id := if given.Some? && given.value != "" then given.value else uuid;
              r == match EnqueueError(old(jobs.jobs), id, request)
                   case Some(error) => Err(error)
                   case None => Ok(Job(id, Fresh(request, now)))
      ensures var id := if given.Some? && given.value != "" then given.value else uuid;
              events == old(events) + (if r.Ok? then [AuditEvent("JOB_ENQUEUE", Some(id), "QUEUED", None, 0)] else [])
    {
      r := jobs.Enqueue(request, given, uuid, now);
      if r.Ok? {
        events := events + [AuditEvent("JOB_ENQUEUE", Some(r.value.id), "QUEUED", None, 0)];
      }
    }

    method Claim(worker: WorkerId, leaseSeconds: real, now: Time) returns (r: Result<Option<Job>, Error>)
      modifies this, jobs
      ensures leaseSeconds <= 0.0 ==> r == Err(ValueError) && jobs.jobs == old(jobs.jobs) && events == old(events)
      ensures leaseSeconds > 0.0 ==> r.Ok?
      ensures r.Ok? && r.value.Some? ==>
                r.value.value.id in jobs.jobs && jobs.jobs[r.value.value.id] == r.value.value.row
      ensures r.Ok? ==>
                var pick := if r.value.Some? then Some(r.value.value.id) else None;
                var e := Event(Call.Claim(worker, leaseSeconds, pick), now);
                && Legal(old(jobs.jobs), e)
                && jobs.jobs == Apply(old(jobs.jobs), e) && events == old(events) + Recorded(old(jobs.jobs), e)
      ensures events == old(events) + (if r.Ok? && r.value.Some?
                                       then [AuditEvent("JOB_CLAIM", Some(r.value.value.id), "RUNNING", None, 0)]
                                       else [])
    {
      r := jobs.Claim(worker, leaseSeconds, now);
      if r.Ok? && r.value.Some? {
        events := events + [AuditEvent("JOB_CLAIM", Some(r.value.value.id), "RUNNING", None, 0)];
      }
    }

    method Complete(id: JobId, worker: WorkerId, now: Time) returns (r: Result<Row, Error>)
      modifies this, jobs
      ensures Performed(old(jobs.jobs), Event(Call.Complete(id, worker), now), jobs.jobs, r)
      ensures events == old(events) + Recorded(old(jobs.jobs), Event(Call.Complete(id, worker), now))
      ensures events == old(events) + (if r.Ok? then [AuditEvent("JOB_COMPLETE", Some(id), "COMPLETED", None, 0)]
                                       else [])
    {
      r := jobs.Complete(id, worker, now);
      if r.Ok? {
        events := events + [AuditEvent("JOB_COMPLETE", Some(id), "COMPLETED", None, 0)];
      }
    }

    method Pause(id: JobId, owner: Option<WorkerId>, now: Time) returns (r: Result<Row, Error>)
      modifies this, jobs
      ensures Performed(old(jobs.jobs), Event(Call.Pause(id, owner), now), jobs.jobs, r)
      ensures events == old(events) + Recorded(old(jobs.jobs), Event(Call.Pause(id, owner), now))
      ensures events == old(events) + (if r.Ok? then [AuditEvent("JOB_PAUSE", Some(id), "PAUSED", None, 0)]
                                       else [])
    {
      r := jobs.Pause(id, owner, now);
      if r.Ok? {
        events := events + [AuditEvent("JOB_PAUSE", Some(id), "PAUSED", None, 0)];
      }
    }

    method Resume(id: JobId, now: Time) returns (r: Result<Row, Error>)
      modifies this, jobs
      ensures Performed(old(jobs.jobs), Event(Call.Resume(id), now), jobs.jobs, r)
      ensures events == old(events) + Recorded(old(jobs.jobs), Event(Call.Resume(id), now))
      ensures events == old(events) + (if r.Ok? then [AuditEvent("JOB_RESUME", Some(id), "QUEUED", None, 0)]
                                       else [])
    {
      r := jobs.Resume(id, now);
      if r.Ok? {
        events := events + [AuditEvent("JOB_RESUME", Some(id), "QUEUED", None, 0)];
      }
    }

    method Cancel(id: JobId, now: Time) returns (r: Result<Row, Error>)
      modifies this, jobs
      ensures Performed(old(jobs.jobs), Event(Call.Cancel(id), now), jobs.jobs, r)
      ensures events == old(events) + Recorded(old(jobs.jobs), Event(Call.Cancel(id), now))
      ensures events == old(events) + (if r.Ok? then [AuditEvent("JOB_CANCEL", Some(id), "CANCELLED", None, 0)]
                                       else [])
    {
      r := jobs.Cancel(id, now);
      if r.Ok? {
        events := events + [AuditEvent("JOB_CANCEL", Some(id), "CANCELLED", None, 0)];
      }
    }

    method Retry(id: JobId, worker: WorkerId, code: string, message: string, delay: real, now: Time)
      returns (r: Result<Row, Error>)
      modifies this, jobs
      ensures Performed(old(jobs.jobs), Event(Call.Retry(id, worker, code, message, delay), now), jobs.jobs, r)
      ensures events == old(events) + Recorded(old(jobs.jobs), Event(Call.Retry(id, worker, code, message, delay), now))
      ensures r.Ok? ==> r.value.state == Queued || r.value.state == Failed
      ensures events == old(events) + (if r.Ok?
                                       then [AuditEvent("JOB_RETRY", Some(id),
                                                        if r.value.state == Failed then "FAILED" else "QUEUED",
                                                        Some(code), 0)]
                                       else [])
    {
      ApplyAddressed(jobs.jobs, Event(Call.Retry(id, worker, code, message, delay), now));
      r := jobs.Retry(id, worker, code, message, delay, now);
      if r.Ok? {
        events := events + [AuditEvent("JOB_RETRY", Some(id), StateName(r.value.state), Some(code), 0)];
      }
    }

    method RecoverExpiredLeases(now: Time) returns (count: nat)
      modifies this, jobs
      ensures jobs.jobs == Apply(old(jobs.jobs), Event(Recover, now))
      ensures count == |ExpiredIds(old(jobs.jobs), now)|
      ensures events == old(events) + Recorded(old(jobs.jobs), Event(Recover, now))
      ensures events == old(events) + (if count == 0 then []
                                       else [AuditEvent("JOB_LEASE_RECOVERY", None, "REQUEUED", None, count)])
    {
      count := jobs.RecoverExpiredLeases(now);
      if count != 0 {
        events := events + [AuditEvent(RECOVERY, None, "REQUEUED", None, count)];
      }
    }
  }

  // ---------- fidelity over runs ----------

  predicate AuditedRun(trace: Trace) {
    LegalRun(map[], trace) && forall k :: 0 <= k < |trace| ==> Offered(trace[k].call)
  }

  function Log(trace: Trace): seq<AuditEvent>
    requires forall k :: 0 <= k < |trace| ==> Offered(trace[k].call)
  {
    if trace == [] then []
    else Log(trace[..|trace| - 1]) + Recorded(After(map[], trace[..|trace| - 1]), trace[|trace| - 1])
  }

  /** The position of the last event that names `id`, or -1. */
  function LastNaming(events: seq<AuditEvent>, id: JobId): (k: int)
    ensures -1 <= k < |events|
    ensures k >= 0 ==> events[k].job == Some(id)
    ensures forall m :: k < m < |events| ==> events[m].job != Some(id)
  {
    if events == [] then -1
    else if events[|events| - 1].job == Some(id) then |events| - 1
    else LastNaming(events[..|events| - 1], id)
  }

  /** A lease recovery has requeued the job since the last audited step on it. */
  predicate RequeuedSince(trace: Trace, id: JobId)
    requires forall k :: 0 <= k < |trace| ==> Offered(trace[k].call)
  {
    trace != [] &&
    var init, e := trace[..|trace| - 1], trace[|trace| - 1];
    var before := After(map[], init);
    if EffectOn(before, e, id) == Recovering then true
    else LastNaming(Recorded(before, e), id) < 0 && RequeuedSince(init, id)
  }

  ghost predicate Faithful(events: seq<AuditEvent>, id: JobId, row: Row, requeued: bool) {
    var k := LastNaming(events, id);
    && k >= 0
    && row.state != Verifying
    && if requeued
       then row.state == Queued && events[k].result == "RUNNING"
            && exists m :: k < m < |events| && events[m].operation == RECOVERY
       else events[k].result == StateName(row.state)
  }

  lemma LastOfTwo(events: seq<AuditEvent>, more: seq<AuditEvent>, id: JobId)
    requires |more| <= 1
    ensures LastNaming(events + more, id)
            == if more != [] && more[0].job == Some(id) then |events| else LastNaming(events, id)
  {
    if more == [] {
      assert events + more == events;
    } else {
      assert (events + more)[..|events|] == events;
    }
  }

  lemma NewJobFaithful(before: Table, e: Event, events: seq<AuditEvent>, id: JobId)
    requires Legal(before, e) && Offered(e.call) && id !in before && id in Apply(before, e)
    ensures Faithful(events + Recorded(before, e), id, Apply(before, e)[id], false)
  {
    LastOfTwo(events, Recorded(before, e), id);
  }

  /** Seen from one job that is already there, an audited step requeues it and logs a recovery, or moves it
      and logs its new state, or leaves it alone and does not name it. */
  lemma StepCases(before: Table, e: Event, id: JobId)
    requires Legal(before, e) && Offered(e.call) && id in before && before[id].state != Verifying
    ensures var more, next := Recorded(before, e), RowAfter(before[id], id, e);
      && |more| <= 1 && next.state != Verifying
      && if EffectOn(before, e, id) == Recovering
         then before[id].state == Running && next.state == Queued && |more| == 1
              && more[0].job.None? && more[0].operation == RECOVERY
         else if more != [] && more[0].job == Some(id) then more[0].result == StateName(next.state)
         else next == before[id]
  {
    if EffectOn(before, e, id) == Recovering {
      assert id in ExpiredIds(before, e.now);
    }
  }

  lemma FaithfulStep(before: Table, e: Event, events: seq<AuditEvent>, id: JobId, requeued: bool)
    requires Legal(before, e) && Offered(e.call) && id in before
    requires Faithful(events, id, before[id], requeued)
    ensures Faithful(events + Recorded(before, e), id, RowAfter(before[id], id, e),
                     EffectOn(before, e, id) == Recovering || (LastNaming(Recorded(before, e), id) < 0 && requeued))
  {
    StepCases(before, e, id);
    LastOfTwo([], Recorded(before, e), id);
    assert [] + Recorded(before, e) == Recorded(before, e);
    FaithfulAppend(events, Recorded(before, e), id, before[id], RowAfter(before[id], id, e), requeued,
                   EffectOn(before, e, id) == Recovering);
  }

  lemma FaithfulAppend(events: seq<AuditEvent>, more: seq<AuditEvent>, id: JobId, row: Row, next: Row, requeued: bool,
                       hit: bool)
    requires Faithful(events, id, row, requeued) && |more| <= 1 && next.state != Verifying
    requires if hit then row.state == Running && next.state == Queued && |more| == 1
                         && more[0].job.None? && more[0].operation == RECOVERY
             else if more != [] && more[0].job == Some(id) then more[0].result == StateName(next.state)
             else next == row
    ensures Faithful(events + more, id, next, hit || (!(more != [] && more[0].job == Some(id)) && requeued))
  {
    LastOfTwo(events, more, id);
    if hit {
      assert (events + more)[|events|].operation == RECOVERY;
    } else if requeued && !(more != [] && more[0].job == Some(id)) {
      var k := LastNaming(events, id);
      var m :| k < m < |events| && events[m].operation == RECOVERY;
      assert (events + more)[m].operation == RECOVERY;
    }
  }

  /** In every run through the facade: the last event naming a job shows the job's current state, unless a
      lease recovery has requeued it since; then it shows RUNNING, the job is QUEUED, and a recovery event
      stands later in the log. */
  lemma {:induction false} AuditFidelity(trace: Trace, id: JobId)
    requires AuditedRun(trace) && id in After(map[], trace)
    ensures Faithful(Log(trace), id, After(map[], trace)[id], RequeuedSince(trace, id))
    ensures Log(trace)[LastNaming(Log(trace), id)].result == StateName(After(map[], trace)[id].state)
            <==> !RequeuedSince(trace, id)
  {
    var init, e := trace[..|trace| - 1], trace[|trace| - 1];
    var before := After(map[], init);
    if id in before {
      AuditFidelity(init, id);
      ReachableOk(init);
      LegalIsPossible(before, e, id);
      FaithfulStep(before, e, Log(init), id, RequeuedSince(init, id));
    } else {
      NewJobFaithful(before, e, Log(init), id);
      NeverRequeued(init, id);
    }
  }

  lemma {:induction false} NeverRequeued(trace: Trace, id: JobId)
    requires AuditedRun(trace) && id !in After(map[], trace)
    ensures !RequeuedSince(trace, id)
  {
    if trace != [] {
      var init := trace[..|trace| - 1];
      NeverRequeued(init, id);
    }
  }

  function Counts(events: seq<AuditEvent>): nat {
    if events == [] then 0 else Counts(events[..|events| - 1]) + events[|events| - 1].count
  }

  /** How many rows the recoveries of a run have put back into the queue. */
  function Requeues(jobs: Table, trace: Trace): nat {
    if trace == [] then 0
    else
      var init, e := trace[..|trace| - 1], trace[|trace| - 1];
      Requeues(jobs, init) + if e.call.Recover? then |ExpiredIds(After(jobs, init), e.now)| else 0
  }

  lemma CountsAppend(events: seq<AuditEvent>, more: seq<AuditEvent>)
    requires |more| <= 1
    ensures Counts(events + more) == Counts(events) + if more == [] then 0 else more[0].count
  {
    if more == [] {
      assert events + more == events;
    } else {
      assert (events + more)[..|events|] == events;
    }
  }

  /** The counts in the recovery events add up to the number of leases requeued. */
  lemma {:induction false} RecoveriesCounted(trace: Trace)
    requires AuditedRun(trace)
    ensures Counts(Log(trace)) == Requeues(map[], trace)
  {
    if trace != [] {
      var init, e := trace[..|trace| - 1], trace[|trace| - 1];
      RecoveriesCounted(init);
      CountsAppend(Log(init), Recorded(After(map[], init), e));
    }
  }
}
