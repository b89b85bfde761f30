/** The durable job queue (teldrive_lab/jobs.py).  One row per job; every public method is one atomic
    step that is handed the clock.  `RowAfter` says what an event does to one row, `Apply` what it does
    to the table, and the class performs the same updates in place. */
module Jobs {
  import opened Base

  type JobId = string
  type WorkerId = string
  type Time = real

  datatype JobState = Queued | Running | Paused | Verifying | Completed | Failed | Cancelled

  function StateName(state: JobState): string {
    match state
    case Queued => "QUEUED"
    case Running => "RUNNING"
    case Paused => "PAUSED"
    case Verifying => "VERIFYING"
    case Completed => "COMPLETED"
    case Failed => "FAILED"
    case Cancelled => "CANCELLED"
  }

  lemma StateNames()
    ensures StateName(Queued) == "QUEUED" && StateName(Running) == "RUNNING" && StateName(Paused) == "PAUSED"
    ensures StateName(Verifying) == "VERIFYING" && StateName(Completed) == "COMPLETED"
    ensures StateName(Failed) == "FAILED" && StateName(Cancelled) == "CANCELLED"
  {}

  datatype JobType =
    | Upload | Download | Archive | Verify | Backup | Snapshot | Organize | Cleanup | Index | Restore

  /** What the caller of `enqueue` fixes. */
  datatype Request = Request(
    kind: JobType, priority: string, maxAttempts: int,
    source: Option<string>, destination: Option<string>, path: Option<string>,
    checksum: Option<string>, parent: Option<JobId>)

  datatype Row = Row(
    request: Request, created: Time, state: JobState,
    started: Option<Time>, updated: Time, completed: Option<Time>,
    attempts: int, retryAt: Option<Time>, progress: real,
    errorCode: Option<string>, errorMessage: Option<string>,
    worker: Option<WorkerId>, leaseUntil: Option<Time>)

  datatype Job = Job(id: JobId, row: Row)

  type Table = map<JobId, Row>

  /** A call of a public method.  `pick` is the row `claim` selects, if any. */
  datatype Call =
    | Enqueue(id: JobId, request: Request)
    | Claim(worker: WorkerId, leaseSeconds: real, pick: Option<JobId>)
    | Recover
    | Renew(id: JobId, worker: WorkerId, leaseSeconds: real)
    | Progress(id: JobId, worker: WorkerId, progress: real)
    | BeginVerification(id: JobId, worker: WorkerId)
    | CompleteVerification(id: JobId, worker: WorkerId)
    | Pause(id: JobId, owner: Option<WorkerId>)
    | Resume(id: JobId)
    | Complete(id: JobId, worker: WorkerId)
    | Fail(id: JobId, worker: WorkerId, code: string, message: string)
    | Cancel(id: JobId)
    | Retry(id: JobId, worker: WorkerId, code: string, message: string, delay: real)

  datatype Event = Event(call: Call, now: Time)

  const VERIFYING_CAP: real := 0.999999

  predicate Held(row: Row) { row.state == Running || row.state == Verifying }

  predicate Terminal(row: Row) { row.state == Completed || row.state == Failed || row.state == Cancelled }

  predicate HeldBy(row: Row, worker: WorkerId) { Held(row) && row.worker == Some(worker) }

  // ---------- one row ----------

  /** The argument checks that raise before the database is touched. */
  predicate ValidArguments(call: Call) {
    match call
    case Enqueue(_, request) => request.maxAttempts >= 1
    case Claim(_, seconds, _) => seconds > 0.0
    case Renew(_, _, seconds) => seconds > 0.0
    case Progress(_, _, progress) => 0.0 <= progress <= 1.0
    case Retry(_, _, _, _, delay) => delay >= 0.0
    case _ => true
  }

  /** The calls that address one existing row by its id. */
  predicate Addressed(call: Call) { !call.Enqueue? && !call.Claim? && !call.Recover? }

  /** The WHERE clause of an addressed call. */
  predicate Accepts(row: Row, call: Call)
    requires Addressed(call)
  {
    match call
    case Renew(_, w, _) => row.state == Running && row.worker == Some(w)
    case Progress(_, w, _) => row.state == Running && row.worker == Some(w)
    case BeginVerification(_, w) => row.state == Running && row.worker == Some(w)
    case CompleteVerification(_, w) => row.state == Verifying && row.worker == Some(w)
    case Pause(_, owner) => row.state == Running && (owner.None? || row.worker == owner)
    case Resume(_) => row.state == Paused
    case Complete(_, w) => row.state == Running && row.worker == Some(w)
    case Fail(_, w, _, _) => HeldBy(row, w)
    case Cancel(_) => !Terminal(row)
    case Retry(_, w, _, _, _) => HeldBy(row, w)
  }

  /** The SET clause of an addressed call. */
  function Write(row: Row, call: Call, now: Time): Row
    requires Addressed(call)
  {
    var free := row.(worker := None, leaseUntil := None, updated := now);
    match call
    case Renew(_, _, seconds) => row.(leaseUntil := Some(now + seconds), updated := now)
    case Progress(_, _, progress) => row.(progress := progress, updated := now)
    case BeginVerification(_, _) =>
      row.(state := Verifying, progress := Min(row.progress, VERIFYING_CAP), updated := now)
    case CompleteVerification(_, _) => free.(state := Completed, progress := 1.0, completed := Some(now))
    case Pause(_, _) => free.(state := Paused)
    case Resume(_) => row.(state := Queued, retryAt := None, updated := now)
    case Complete(_, _) => free.(state := Completed, progress := 1.0, completed := Some(now))
    case Fail(_, _, code, message) =>
      free.(state := Failed, attempts := row.attempts + 1, errorCode := Some(code), errorMessage := Some(message))
    case Cancel(_) => free.(state := Cancelled)
    case Retry(_, _, code, message, delay) =>
      var attempts := row.attempts + 1;
      var spent := attempts >= row.request.maxAttempts;
      free.(attempts := attempts, state := if spent then Failed else Queued,
            retryAt := if spent then None else Some(now + delay),
            errorCode := Some(code), errorMessage := Some(message))
  }

  predicate Eligible(row: Row, now: Time) {
    row.state == Queued && (row.retryAt.None? || row.retryAt.value <= now)
  }

  function Claimed(row: Row, worker: WorkerId, seconds: real, now: Time): Row {
    row.(state := Running, worker := Some(worker), leaseUntil := Some(now + seconds),
         started := if row.started.None? then Some(now) else row.started, updated := now)
  }

  predicate Expired(row: Row, now: Time) {
    Held(row) && row.leaseUntil.Some? && row.leaseUntil.value < now
  }

  function Requeued(row: Row, now: Time): Row {
    row.(state := Queued, worker := None, leaseUntil := None, retryAt := Some(now), updated := now)
  }

  function Fresh(request: Request, now: Time): Row {
    Row(request, now, Queued, None, now, None, 0, None, 0.0, None, None, None, None)
  }

  /** What event `e` does to the existing row `row` with key `id`. */
  function RowAfter(row: Row, id: JobId, e: Event): Row {
    if !ValidArguments(e.call) then row
    else match e.call
      case Enqueue(_, _) => row
      case Claim(worker, seconds, pick) => if pick == Some(id) then Claimed(row, worker, seconds, e.now) else row
      case Recover => if Expired(row, e.now) then Requeued(row, e.now) else row
      case _ => if e.call.id == id && Accepts(row, e.call) then Write(row, e.call, e.now) else row
  }

  // ---------- the table ----------

  function Rank(priority: string): int {
    if priority == "CRITICAL" then 0
    else if priority == "HIGH" then 1
    else if priority == "NORMAL" then 2
    else if priority == "LOW" then 3
    else 4
  }

  /** ORDER BY priority rank, created. */
  predicate Before(a: Row, b: Row) {
    Rank(a.request.priority) < Rank(b.request.priority)
    || (Rank(a.request.priority) == Rank(b.request.priority) && a.created <= b.created)
  }

  /** The words of the priorities, highest first; any other word counts as one class below them. */
  const CLASSES: seq<string> := ["CRITICAL", "HIGH", "NORMAL", "LOW"]

  /** `b` is of a lower class than `a`, or of the same class and not older. */
  predicate ServedAfter(a: Row, b: Row) {
    var p, q := a.request.priority, b.request.priority;
    && (q == "CRITICAL" ==> p == "CRITICAL")
    && (q == "HIGH" ==> p == "CRITICAL" || p == "HIGH")
    && (q == "NORMAL" ==> p == "CRITICAL" || p == "HIGH" || p == "NORMAL")
    && (q == "LOW" ==> p in CLASSES)
    && (p == q || (p !in CLASSES && q !in CLASSES) ==> a.created <= b.created)
  }

  /** The order of the SELECT, in the words of the priorities. */
  lemma BeforeInWords(a: Row, b: Row)
    ensures Before(a, b) <==> ServedAfter(a, b)
  {}

  /** Some row the SELECT of `claim` may return: SQL leaves ties open. */
  predicate IsNext(jobs: Table, now: Time, id: JobId) {
    && id in jobs && Eligible(jobs[id], now)
    && forall other :: other in jobs && Eligible(jobs[other], now) ==> Before(jobs[id], jobs[other])
  }

  predicate NothingEligible(jobs: Table, now: Time) {
    forall id :: id in jobs ==> !Eligible(jobs[id], now)
  }

  function EnqueueError(jobs: Table, id: JobId, request: Request): Option<Error> {
    if request.maxAttempts < 1 then Some(ValueError)
    else if request.parent.Some? && request.parent.value !in jobs then Some(KeyError)
    else if request.parent.Some? && Terminal(jobs[request.parent.value]) then Some(ValueError)
    else if id in jobs then Some(IntegrityError)
    else None
  }

  /** `pick` is what the SELECT may return. */
  predicate Legal(jobs: Table, e: Event) {
    e.call.Claim? && ValidArguments(e.call) ==>
      if e.call.pick.Some? then IsNext(jobs, e.now, e.call.pick.value) else NothingEligible(jobs, e.now)
  }

  function Apply(jobs: Table, e: Event): Table {
    var kept := map id | id in jobs :: RowAfter(jobs[id], id, e);
    if e.call.Enqueue? && EnqueueError(jobs, e.call.id, e.call.request).None?
    then kept[e.call.id := Fresh(e.call.request, e.now)]
    else kept
  }

  /** The call changes (or, for a claim, selects) a row. */
  predicate Succeeds(jobs: Table, call: Call) {
    && ValidArguments(call)
    && match call
       case Enqueue(id, request) => EnqueueError(jobs, id, request).None?
       case Claim(_, _, pick) => pick.Some?
       case Recover => true
       case _ => call.id in jobs && Accepts(jobs[call.id], call)
  }

  lemma ApplyAddressed(jobs: Table, e: Event)
    requires Addressed(e.call)
    ensures Apply(jobs, e) == if Succeeds(jobs, e.call)
                              then jobs[e.call.id := Write(jobs[e.call.id], e.call, e.now)] else jobs
  {}

  lemma NextInWords(jobs: Table, now: Time, id: JobId)
    requires IsNext(jobs, now, id)
    ensures jobs[id].state == Queued && (jobs[id].retryAt.None? || jobs[id].retryAt.value <= now)
    ensures forall other :: other in jobs && jobs[other].state == Queued
                            && (jobs[other].retryAt.None? || jobs[other].retryAt.value <= now) ==>
              ServedAfter(jobs[id], jobs[other])
  {
    forall other | other in jobs && Eligible(jobs[other], now) ensures ServedAfter(jobs[id], jobs[other]) {
      BeforeInWords(jobs[id], jobs[other]);
    }
  }

  lemma {:induction false} SomeRowIsNext(jobs: Table, now: Time)
    requires !NothingEligible(jobs, now)
    ensures exists id :: IsNext(jobs, now, id)
    decreases |jobs|
  {
    var id :| id in jobs && Eligible(jobs[id], now);
    var rest := jobs - {id};
    assert |rest| < |jobs| by { assert rest.Keys == jobs.Keys - {id}; }
    if NothingEligible(rest, now) {
      assert IsNext(jobs, now, id) by {
        forall other | other in jobs && other != id ensures !Eligible(jobs[other], now) {
          assert other in rest;
        }
      }
    } else {
      SomeRowIsNext(rest, now);
      var best :| IsNext(rest, now, best);
      var winner := if Before(jobs[id], jobs[best]) then id else best;
      assert IsNext(jobs, now, winner) by {
        forall other | other in jobs && Eligible(jobs[other], now) ensures Before(jobs[winner], jobs[other]) {
          if other != id { assert other in rest; }
        }
      }
    }
  }

  // ---------- the store ----------

  /** What an addressed call promises its caller. */
  ghost predicate Performed(before: Table, e: Event, after: Table, r: Result<Row, Error>)
    requires Addressed(e.call)
  {
    && after == Apply(before, e)
    && (r.Ok? <==> Succeeds(before, e.call))
    && (r.Ok? ==> e.call.id in after && r.value == after[e.call.id])
    && (r.Err? ==> r.error == ValueError && after == before)
  }

  class JobStore {
    var jobs: Table

    constructor ()
      ensures jobs == map[]
    {
      jobs := map[];
    }

    method Enqueue(request: Request, given: Option<JobId>, uuid: JobId, now: Time) returns (r: Result<Job, Error>)
      modifies this
      ensures var id := if given.Some? && given.value != "" then given.value else uuid;
              && jobs == Apply(old(jobs), Event(Call.Enqueue(id, request), now))
              && (match EnqueueError(old(jobs), id, request)
                  case Some(error) => r == Err(error) && jobs == old(jobs)
                  case None => r == Ok(Job(id, Fresh(request, now))) && jobs == old(jobs)[id := Fresh(request, now)])
      ensures var id := if given.Some? && given.value != "" then given.value else uuid;
              && (r == Err(KeyError) <==>
                    request.maxAttempts >= 1 && request.parent.Some? && request.parent.value !in old(jobs))
              && (r == Err(ValueError) <==>
                    || request.maxAttempts < 1
                    || (request.parent.Some? && request.parent.value in old(jobs)
                        && old(jobs)[request.parent.value].state in {Completed, Failed, Cancelled}))
              && (r.Err? ==> r.error in {KeyError, ValueError, IntegrityError})
              && (r == Err(IntegrityError) ==> id in old(jobs))
              && (r.Ok? ==>
                    && id !in old(jobs) && r.value.id == id
                    && r.value.row == Row(request, now, Queued, None, now, None, 0, None, 0.0, None, None, None, None)
                    && jobs == old(jobs)[id := r.value.row])
    {
      var id := if given.Some? && given.value != "" then given.value else uuid;
      ghost var e := Event(Call.Enqueue(id, request), now);
      assert forall k :: k in jobs ==> RowAfter(jobs[k], k, e) == jobs[k];
      if request.maxAttempts < 1 {
        return Err(ValueError);
      }
      if request.parent.Some? {
        if request.parent.value !in jobs {
          return Err(KeyError);
        }
        var parent := jobs[request.parent.value].state;
        if parent == Completed || parent == Failed || parent == Cancelled {
          return Err(ValueError);
        }
      }
      if id in jobs {
        return Err(IntegrityError);
      }
      jobs := jobs[id := Row(request, now, Queued, None, now, None, 0, None, 0.0, None, None, None, None)];
      r := Ok(Job(id, jobs[id]));
    }

    method Claim(worker: WorkerId, leaseSeconds: real, now: Time) returns (r: Result<Option<Job>, Error>)
      modifies this
      ensures leaseSeconds <= 0.0 ==> r == Err(ValueError) && jobs == old(jobs)
      ensures leaseSeconds > 0.0 ==> r.Ok?
      ensures r == Ok(None) ==> NothingEligible(old(jobs), now) && jobs == old(jobs)
      ensures r.Ok? && r.value.Some? ==>
                && IsNext(old(jobs), now, r.value.value.id)
                && r.value.value.id in jobs && jobs[r.value.value.id] == r.value.value.row
      ensures leaseSeconds > 0.0 ==>
        (r == Ok(None) <==>
           forall id :: id in old(jobs) && old(jobs)[id].state == Queued ==>
             old(jobs)[id].retryAt.Some? && old(jobs)[id].retryAt.value > now)
      ensures r.Ok? && r.value.Some? ==>
        var id := r.value.value.id;
        && old(jobs)[id].state == Queued && (old(jobs)[id].retryAt.None? || old(jobs)[id].retryAt.value <= now)
        && (forall other :: other in old(jobs) && old(jobs)[other].state == Queued
                            && (old(jobs)[other].retryAt.None? || old(jobs)[other].retryAt.value <= now) ==>
              ServedAfter(old(jobs)[id], old(jobs)[other]))
        && jobs == old(jobs)[id := old(jobs)[id].(
             state := Running, worker := Some(worker), leaseUntil := Some(now + leaseSeconds), updated := now,
             started := Some(old(jobs)[id].started.GetOr(now)))]
      ensures r.Ok? ==>
                var pick := if r.value.Some? then Some(r.value.value.id) else None;
                var e := Event(Call.Claim(worker, leaseSeconds, pick), now);
                Legal(old(jobs), e) && jobs == Apply(old(jobs), e)
    {
      if leaseSeconds <= 0.0 {
        return Err(ValueError);
      }
      if forall id :: id in jobs ==> !Eligible(jobs[id], now) {
        r := Ok(None);
        assert jobs == Apply(jobs, Event(Call.Claim(worker, leaseSeconds, None), now));
        return;
      }
      SomeRowIsNext(jobs, now);
      var id :| id in jobs && IsNext(jobs, now, id);
      NextInWords(jobs, now, id);
      var row := jobs[id];
      jobs := jobs[id := row.(state := Running, worker := Some(worker), leaseUntil := Some(now + leaseSeconds),
                              started := if row.started.Some? then row.started else Some(now), updated := now)];
      r := Ok(Some(Job(id, jobs[id])));
      assert jobs == Apply(old(jobs), Event(Call.Claim(worker, leaseSeconds, Some(id)), now));
    }

    method Get(id: JobId) returns (r: Result<Job, Error>)
      ensures r == if id in jobs then Ok(Job(id, jobs[id])) else Err(KeyError)
    {
      if id !in jobs {
        return Err(KeyError);
      }
      r := Ok(Job(id, jobs[id]));
    }

    method RenewLease(id: JobId, worker: WorkerId, leaseSeconds: real, now: Time) returns (r: Result<Row, Error>)
      modifies this
      ensures Performed(old(jobs), Event(Renew(id, worker, leaseSeconds), now), jobs, r)
      ensures r.Ok? <==> leaseSeconds > 0.0 && id in old(jobs) && old(jobs)[id].state == Running
                         && old(jobs)[id].worker == Some(worker)
      ensures r.Ok? ==> jobs == old(jobs)[id := old(jobs)[id].(
                leaseUntil := Some(now + leaseSeconds), updated := now)]
    {
      ApplyAddressed(jobs, Event(Renew(id, worker, leaseSeconds), now));
      if leaseSeconds <= 0.0 || id !in jobs || jobs[id].worker != Some(worker) || jobs[id].state != Running {
        return Err(ValueError);
      }
      jobs := jobs[id := jobs[id].(leaseUntil := Some(now + leaseSeconds), updated := now)];
      r := Ok(jobs[id]);
    }

    method UpdateProgress(id: JobId, worker: WorkerId, progress: real, now: Time) returns (r: Result<Row, Error>)
      modifies this
      ensures Performed(old(jobs), Event(Progress(id, worker, progress), now), jobs, r)
      ensures r.Ok? <==> 0.0 <= progress <= 1.0 && id in old(jobs) && old(jobs)[id].state == Running
                         && old(jobs)[id].worker == Some(worker)
      ensures r.Ok? ==> jobs == old(jobs)[id := old(jobs)[id].(
                progress := progress, updated := now)]
    {
      ApplyAddressed(jobs, Event(Progress(id, worker, progress), now));
      if !(0.0 <= progress <= 1.0) || id !in jobs || jobs[id].worker != Some(worker) || jobs[id].state != Running {
        return Err(ValueError);
      }
      jobs := jobs[id := jobs[id].(progress := progress, updated := now)];
      r := Ok(jobs[id]);
    }

    method BeginVerification(id: JobId, worker: WorkerId, now: Time) returns (r: Result<Row, Error>)
      modifies this
      ensures Performed(old(jobs), Event(Call.BeginVerification(id, worker), now), jobs, r)
      ensures r.Ok? <==> id in old(jobs) && old(jobs)[id].state == Running && old(jobs)[id].worker == Some(worker)
      ensures r.Ok? ==> jobs == old(jobs)[id := old(jobs)[id].(
                state := Verifying, updated := now,
                progress := if old(jobs)[id].progress < 0.999999 then old(jobs)[id].progress else 0.999999)]
    {
      ApplyAddressed(jobs, Event(Call.BeginVerification(id, worker), now));
      if id !in jobs || jobs[id].worker != Some(worker) || jobs[id].state != Running {
        return Err(ValueError);
      }
      var capped := if VERIFYING_CAP < jobs[id].progress then VERIFYING_CAP else jobs[id].progress;
      jobs := jobs[id := jobs[id].(state := Verifying, progress := capped, updated := now)];
      r := Ok(jobs[id]);
    }

    method CompleteVerification(id: JobId, worker: WorkerId, now: Time) returns (r: Result<Row, Error>)
      modifies this
      ensures Performed(old(jobs), Event(Call.CompleteVerification(id, worker), now), jobs, r)
      ensures r.Ok? <==> id in old(jobs) && old(jobs)[id].state == Verifying && old(jobs)[id].worker == Some(worker)
      ensures r.Ok? ==> jobs == old(jobs)[id := old(jobs)[id].(
                state := Completed, progress := 1.0, completed := Some(now), updated := now, leaseUntil := None,
                worker := None)]
    {
      ApplyAddressed(jobs, Event(Call.CompleteVerification(id, worker), now));
      if id !in jobs || jobs[id].worker != Some(worker) || jobs[id].state != Verifying {
        return Err(ValueError);
      }
      jobs := jobs[id := jobs[id].(state := Completed, progress := 1.0, completed := Some(now), updated := now,
                                   leaseUntil := None, worker := None)];
      r := Ok(jobs[id]);
    }

    method Pause(id: JobId, owner: Option<WorkerId>, now: Time) returns (r: Result<Row, Error>)
      modifies this
      ensures Performed(old(jobs), Event(Call.Pause(id, owner), now), jobs, r)
      ensures r.Ok? <==> id in old(jobs) && old(jobs)[id].state == Running
                         && (owner.None? || old(jobs)[id].worker == owner)
      ensures r.Ok? ==> jobs == old(jobs)[id := old(jobs)[id].(
                state := Paused, updated := now, worker := None, leaseUntil := None)]
    {
      ApplyAddressed(jobs, Event(Call.Pause(id, owner), now));
      var matches := id in jobs && jobs[id].state == Running;
      if owner.Some? {
        matches := matches && jobs[id].worker == owner;
      }
      if !matches {
        return Err(ValueError);
      }
      jobs := jobs[id := jobs[id].(state := Paused, updated := now, worker := None, leaseUntil := None)];
      r := Ok(jobs[id]);
    }

    method Resume(id: JobId, now: Time) returns (r: Result<Row, Error>)
      modifies this
      ensures Performed(old(jobs), Event(Call.Resume(id), now), jobs, r)
      ensures r.Ok? <==> id in old(jobs) && old(jobs)[id].state == Paused
      ensures r.Ok? ==> jobs == old(jobs)[id := old(jobs)[id].(
                state := Queued, retryAt := None, updated := now)]
    {
      ApplyAddressed(jobs, Event(Call.Resume(id), now));
      if id !in jobs || jobs[id].state != Paused {
        return Err(ValueError);
      }
      jobs := jobs[id := jobs[id].(state := Queued, retryAt := None, updated := now)];
      r := Ok(jobs[id]);
    }

    method Complete(id: JobId, worker: WorkerId, now: Time) returns (r: Result<Row, Error>)
      modifies this
      ensures Performed(old(jobs), Event(Call.Complete(id, worker), now), jobs, r)
      ensures r.Ok? <==> id in old(jobs) && old(jobs)[id].state == Running && old(jobs)[id].worker == Some(worker)
      ensures r.Ok? ==> jobs == old(jobs)[id := old(jobs)[id].(
                state := Completed, progress := 1.0, completed := Some(now), updated := now, leaseUntil := None,
                worker := None)]
    {
      ApplyAddressed(jobs, Event(Call.Complete(id, worker), now));
      if id !in jobs || jobs[id].worker != Some(worker) || jobs[id].state != Running {
        return Err(ValueError);
      }
      jobs := jobs[id := jobs[id].(state := Completed, progress := 1.0, completed := Some(now), updated := now,
                                   leaseUntil := None, worker := None)];
      r := Ok(jobs[id]);
    }

    method Fail(id: JobId, worker: WorkerId, code: string, message: string, now: Time) returns (r: Result<Row, Error>)
      modifies this
      ensures Performed(old(jobs), Event(Call.Fail(id, worker, code, message), now), jobs, r)
      ensures r.Ok? <==> id in old(jobs) && old(jobs)[id].state in {Running, Verifying}
                         && old(jobs)[id].worker == Some(worker)
      ensures r.Ok? ==> jobs == old(jobs)[id := old(jobs)[id].(
                state := Failed, attempts := old(jobs)[id].attempts + 1, errorCode := Some(code),
                errorMessage := Some(message), updated := now, leaseUntil := None, worker := None)]
    {
      ApplyAddressed(jobs, Event(Call.Fail(id, worker, code, message), now));
      if id !in jobs || jobs[id].worker != Some(worker) || (jobs[id].state != Running && jobs[id].state != Verifying) {
        return Err(ValueError);
      }
      jobs := jobs[id := jobs[id].(state := Failed, attempts := jobs[id].attempts + 1, errorCode := Some(code),
                                   errorMessage := Some(message), updated := now, leaseUntil := None, worker := None)];
      r := Ok(jobs[id]);
    }

    method Cancel(id: JobId, now: Time) returns (r: Result<Row, Error>)
      modifies this
      ensures Performed(old(jobs), Event(Call.Cancel(id), now), jobs, r)
      ensures r.Ok? <==> id in old(jobs) && old(jobs)[id].state in {Queued, Running, Paused, Verifying}
      ensures r.Ok? ==> jobs == old(jobs)[id := old(jobs)[id].(
                state := Cancelled, updated := now, leaseUntil := None, worker := None)]
    {
      ApplyAddressed(jobs, Event(Call.Cancel(id), now));
      if id !in jobs || jobs[id].state !in {Queued, Running, Paused, Verifying} {
        return Err(ValueError);
      }
      jobs := jobs[id := jobs[id].(state := Cancelled, updated := now, leaseUntil := None, worker := None)];
      r := Ok(jobs[id]);
    }

    method RecoverExpiredLeases(now: Time) returns (count: nat)
      modifies this
      ensures jobs == Apply(old(jobs), Event(Recover, now))
      ensures count == |ExpiredIds(old(jobs), now)|
      ensures jobs.Keys == old(jobs).Keys
      ensures forall id :: id in old(jobs) ==>
        var row := old(jobs)[id];
        jobs[id] == if row.state in {Running, Verifying} && row.leaseUntil.Some? && row.leaseUntil.value < now
                    then row.(state := Queued, worker := None, leaseUntil := None, retryAt := Some(now), updated := now)
                    else row
    {
      var matched := set id |
        id in jobs && Held(jobs[id]) && jobs[id].leaseUntil.Some? && jobs[id].leaseUntil.value < now;
      assert matched == ExpiredIds(jobs, now);
      count := |matched|;
      jobs := map id | id in jobs ::
        if id in matched
        then jobs[id].(state := Queued, worker := None, leaseUntil := None, retryAt := Some(now), updated := now)
        else jobs[id];
    }

    method Retry(id: JobId, worker: WorkerId, code: string, message: string, delay: real, now: Time)
      returns (r: Result<Row, Error>)
      modifies this
      ensures Performed(old(jobs), Event(Call.Retry(id, worker, code, message, delay), now), jobs, r)
      ensures r.Ok? <==> delay >= 0.0 && id in old(jobs) && old(jobs)[id].state in {Running, Verifying}
                         && old(jobs)[id].worker == Some(worker)
      ensures r.Ok? ==>
        var row := old(jobs)[id].(attempts := old(jobs)[id].attempts + 1, errorCode := Some(code),
                                  errorMessage := Some(message), worker := None, leaseUntil := None, updated := now);
        jobs == old(jobs)[id := if row.attempts >= row.request.maxAttempts then row.(state := Failed, retryAt := None)
                                else row.(state := Queued, retryAt := Some(now + delay))]
    {
      ApplyAddressed(jobs, Event(Call.Retry(id, worker, code, message, delay), now));
      if delay < 0.0 {
        return Err(ValueError);
      }
      if id !in jobs || jobs[id].worker != Some(worker) || (jobs[id].state != Running && jobs[id].state != Verifying) {
        return Err(ValueError);
      }
      var attempts := jobs[id].attempts + 1;
      var state := if attempts >= jobs[id].request.maxAttempts then Failed else Queued;
      var retryAt := if state == Failed then None else Some(now + delay);
      jobs := jobs[id := jobs[id].(attempts := attempts, state := state, retryAt := retryAt, errorCode := Some(code),
                                   errorMessage := Some(message), worker := None, leaseUntil := None, updated := now)];
      r := Ok(jobs[id]);
    }

    /** What other processes do to the shared table: any legal run. */
    method Others(trace: Trace)
      requires LegalRun(jobs, trace)
      modifies this
      ensures jobs == After(old(jobs), trace)
    {
      jobs := After(jobs, trace);
    }
  }

  function ExpiredIds(jobs: Table, now: Time): set<JobId> {
    set id | id in jobs && Expired(jobs[id], now)
  }

  // ---------- runs ----------

  type Trace = seq<Event>

  function After(jobs: Table, trace: Trace): Table {
    if trace == [] then jobs
    else Apply(After(jobs, trace[..|trace| - 1]), trace[|trace| - 1])
  }

  predicate LegalRun(jobs: Table, trace: Trace) {
    trace == [] ||
    var before := trace[..|trace| - 1];
    LegalRun(jobs, before) && Legal(After(jobs, before), trace[|trace| - 1])
  }

  /** A run in two parts is the second part run from where the first one ends. */
  lemma {:induction false} RunsCompose(jobs: Table, a: Trace, b: Trace)
    ensures After(jobs, a + b) == After(After(jobs, a), b)
    ensures LegalRun(jobs, a + b) <==> LegalRun(jobs, a) && LegalRun(After(jobs, a), b)
    decreases |b|
  {
    if b == [] {
      assert a + b == a;
    } else {
      var init := b[..|b| - 1];
      RunsCompose(jobs, a, init);
      assert (a + b)[..|a + b| - 1] == a + init;
    }
  }

  predicate Monotone(trace: Trace) {
    forall i, j :: 0 <= i < j < |trace| ==> trace[i].now <= trace[j].now
  }
}
