/** The durable worker (teldrive_lab/worker.py): claim, gate, execute, read again, settle.  Other processes
    may run any legal steps of the store at four points: while the authorization is fetched, while the
    executor runs, between the second read and the settling write, and between the two writes of a success. */
module Workers {
  import opened Base
  import opened Jobs
  import opened JobRuns
  import opened Retry
  import Safety

  /** What the authorization provider does (it answers None when there is none). */
  datatype Provision = Provided(receipt: Option<Safety.Receipt>) | ProviderThrew

  datatype Execution = Returned(result: ExecutionResult) | Threw(message: string)

  datatype RunResult = Idle | Finished(job: Job) | Race(job: Job) | Raised(error: Error)

  /** What others do when they find the table in a given state. */
  type Environment = Table -> Trace

  datatype Interference = Interference(gate: Environment, during: Environment, settle: Environment, commit: Environment)

  datatype Clock = Clock(claim: Time, settle: Time, commit: Time)

  predicate Presents(call: Call, w: WorkerId) {
    match call
    case Enqueue(_, _) => false
    case Recover => false
    case Resume(_) => false
    case Cancel(_) => false
    case Pause(_, owner) => owner == Some(w)
    case _ => call.worker == w
  }

  predicate NotBy(trace: Trace, w: WorkerId) {
    forall k :: 0 <= k < |trace| ==> !Presents(trace[k].call, w)
  }

  /** Others obey the store's rules and do not reuse this worker's id. */
  ghost predicate Others(env: Environment, w: WorkerId) {
    forall jobs :: LegalRun(jobs, env(jobs)) && NotBy(env(jobs), w)
  }

  ghost predicate Rely(i: Interference, w: WorkerId) {
    Others(i.gate, w) && Others(i.during, w) && Others(i.settle, w) && Others(i.commit, w)
  }

  function OperationFor(row: Row): Safety.Operation {
    if row.request.kind == Index then Safety.Index
    else if row.request.kind == Verify then Safety.Verify
    else Safety.Transfer
  }

  function Listed(value: Option<string>): seq<string> {
    if value.None? || value.value == "" then [] else [value.value]
  }

  function PathTexts(row: Row): seq<string> {
    Listed(row.request.source) + Listed(row.request.destination) + Listed(row.request.path)
  }

  function Resolved(resolve: string -> Safety.Path, texts: seq<string>): seq<Safety.Path> {
    seq(|texts|, k requires 0 <= k < |texts| => resolve(texts[k]))
  }

  function SafetyDecision(boundary: seq<Safety.Path>, resolve: string -> Safety.Path, row: Row,
                          receipt: Option<Safety.Receipt>): Safety.Decision
  {
    Safety.Authorize(boundary, OperationFor(row), Resolved(resolve, PathTexts(row)), false, receipt)
  }

  /** A path the job names must lie below no root. */
  ghost predicate Outside(boundary: seq<Safety.Path>, resolve: string -> Safety.Path, field: Option<string>) {
    field.Some? && field.value != "" ==> forall root :: root in boundary ==> !(root <= resolve(field.value))
  }

  /** The text of the path a field names, if it names one. */
  ghost function Named(resolve: string -> Safety.Path, field: Option<string>): multiset<string> {
    if field.Some? && field.value != "" then multiset{Safety.Text(resolve(field.value))} else multiset{}
  }

  /** What the gate asks: nothing for INDEX and VERIFY; for any other job, that source, destination and path lie
      outside the boundary, and an approved receipt for a transfer of exactly these, counted with multiplicity. */
  ghost predicate GateOpen(boundary: seq<Safety.Path>, resolve: string -> Safety.Path, q: Request,
                           receipt: Option<Safety.Receipt>)
  {
    || q.kind == Index || q.kind == Verify
    || (&& Outside(boundary, resolve, q.source) && Outside(boundary, resolve, q.destination)
        && Outside(boundary, resolve, q.path)
        && receipt.Some? && receipt.value.approved && receipt.value.operation == Safety.Transfer
        && Sorted(receipt.value.paths, Self)
        && multiset(receipt.value.paths)
           == Named(resolve, q.source) + Named(resolve, q.destination) + Named(resolve, q.path))
  }

  lemma ListedPaths(boundary: seq<Safety.Path>, resolve: string -> Safety.Path, field: Option<string>)
    ensures multiset(Safety.Texts(Resolved(resolve, Listed(field)))) == Named(resolve, field)
    ensures Safety.Untouched(boundary, Resolved(resolve, Listed(field))) <==> Outside(boundary, resolve, field)
  {
    var paths := Resolved(resolve, Listed(field));
    if field.Some? && field.value != "" {
      assert paths == [resolve(field.value)];
      assert Safety.Texts(paths) == [Safety.Text(resolve(field.value))];
      assert resolve(field.value) in paths;
    } else {
      assert paths == [];
    }
  }

  lemma TogetherTexts(a: seq<Safety.Path>, b: seq<Safety.Path>)
    ensures multiset(Safety.Texts(a + b)) == multiset(Safety.Texts(a)) + multiset(Safety.Texts(b))
  {
    var all, x, y := Safety.Texts(a + b), Safety.Texts(a), Safety.Texts(b);
    SameElements(all, x + y);
    assert multiset(x + y) == multiset(x) + multiset(y);
  }

  lemma SameElements(s: seq<string>, t: seq<string>)
    requires |s| == |t| && forall i :: 0 <= i < |s| ==> s[i] == t[i]
    ensures s == t
  {}

  lemma TogetherUntouched(boundary: seq<Safety.Path>, a: seq<Safety.Path>, b: seq<Safety.Path>)
    ensures Safety.Untouched(boundary, a + b) <==> Safety.Untouched(boundary, a) && Safety.Untouched(boundary, b)
  {
    if Safety.Untouched(boundary, a + b) {
      forall p, root | p in a && root in boundary ensures !(root <= p) {
        assert p in a + b;
      }
      forall p, root | p in b && root in boundary ensures !(root <= p) {
        assert p in a + b;
      }
    }
  }

  lemma ResolvedParts(resolve: string -> Safety.Path, a: seq<string>, b: seq<string>)
    ensures Resolved(resolve, a + b) == Resolved(resolve, a) + Resolved(resolve, b)
  {}

  lemma NamedPaths(boundary: seq<Safety.Path>, resolve: string -> Safety.Path, row: Row)
    ensures var paths, q := Resolved(resolve, PathTexts(row)), row.request;
      && multiset(Safety.Texts(paths))
         == Named(resolve, q.source) + Named(resolve, q.destination) + Named(resolve, q.path)
      && (Safety.Untouched(boundary, paths) <==>
            && Outside(boundary, resolve, q.source) && Outside(boundary, resolve, q.destination)
            && Outside(boundary, resolve, q.path))
  {
    var q := row.request;
    ListedPaths(boundary, resolve, q.source);
    ListedPaths(boundary, resolve, q.destination);
    ListedPaths(boundary, resolve, q.path);
    ResolvedParts(resolve, Listed(q.source), Listed(q.destination));
    ResolvedParts(resolve, Listed(q.source) + Listed(q.destination), Listed(q.path));
    var a, b := Resolved(resolve, Listed(q.source)), Resolved(resolve, Listed(q.destination));
    var c := Resolved(resolve, Listed(q.path));
    TogetherTexts(a, b);
    TogetherTexts(a + b, c);
    TogetherUntouched(boundary, a, b);
    TogetherUntouched(boundary, a + b, c);
  }

  /** The gate allows exactly the jobs that `GateOpen` describes. */
  lemma GateAllowsIff(boundary: seq<Safety.Path>, resolve: string -> Safety.Path, row: Row,
                      receipt: Option<Safety.Receipt>)
    ensures SafetyDecision(boundary, resolve, row, receipt).allowed
       <==> GateOpen(boundary, resolve, row.request, receipt)
  {
    var q, paths := row.request, Resolved(resolve, PathTexts(row));
    if q.kind == Index || q.kind == Verify {
      Safety.ReadingAlwaysAllowed(boundary, OperationFor(row), paths, false, receipt);
    } else {
      Safety.MutationAllowedIff(boundary, Safety.Transfer, paths, false, receipt);
      NamedPaths(boundary, resolve, row);
    }
  }

  /** An executor that raises counts as retryable, with no delay. */
  function ResultOf(execution: Execution): ExecutionResult {
    match execution
    case Returned(result) => result
    case Threw(message) => ExecutionResult(Retryable, Some("EXECUTOR_EXCEPTION"), Some(message), 0.0)
  }

  function StatusName(status: Status): string {
    match status
    case Success => "SUCCESS"
    case Retryable => "RETRYABLE"
    case PermanentFailure => "PERMANENT"
    case UnsafeFailure => "UNSAFE"
    case CancelledByExecutor => "CANCELLED"
  }

  /** The one write that settles an execution that did not succeed. */
  function SettlingCall(id: JobId, w: WorkerId, result: ExecutionResult): Call
    requires result.status != Success
  {
    match result.status
    case CancelledByExecutor => Call.Cancel(id)
    case Retryable => Call.Retry(id, w, NonEmpty(result.code).GetOr("RETRYABLE"),
                                 NonEmpty(result.message).GetOr("retryable execution failure"), Max(0.0, result.delay))
    case _ => Call.Fail(id, w, NonEmpty(result.code).GetOr(StatusName(result.status)),
                        NonEmpty(result.message).GetOr("execution failed"))
  }

  /** A single write: it takes effect and its row is returned, or it raises and nothing changes. */
  ghost predicate Wrote(before: Table, call: Call, now: Time, after: Table, r: RunResult)
    requires Addressed(call)
  {
    if Succeeds(before, call)
    then after == before[call.id := Write(before[call.id], call, now)] && r == Finished(Job(call.id, after[call.id]))
    else after == before && r == Raised(ValueError)
  }

  /** The two writes of a success, with others stepping in between. */
  ghost predicate Verified(before: Table, id: JobId, w: WorkerId, commit: Environment, clock: Clock, after: Table,
                           r: RunResult)
  {
    if Succeeds(before, Call.BeginVerification(id, w))
    then
      var begun := before[id := Write(before[id], Call.BeginVerification(id, w), clock.settle)];
      Wrote(After(begun, commit(begun)), Call.CompleteVerification(id, w), clock.commit, after, r)
    else after == before && r == Raised(ValueError)
  }

  /** Everything after the second read: a job no longer held is left exactly as found. */
  ghost predicate Settled(found: Table, id: JobId, w: WorkerId, result: ExecutionResult, i: Interference, clock: Clock,
                          after: Table, r: RunResult)
  {
    && id in found
    && if !HeldBy(found[id], w) then after == found && r == Race(Job(id, found[id]))
       else
         var before := After(found, i.settle(found));
         if result.status == Success then Verified(before, id, w, i.commit, clock, after, r)
         else Wrote(before, SettlingCall(id, w, result), clock.settle, after, r)
  }

  class Executor {
    var calls: seq<(Job, Option<Safety.Receipt>)>

    constructor ()
      ensures calls == []
    {
      calls := [];
    }

    /** The side effects are not modelled; what comes back, and what others do meanwhile, is arbitrary. */
    method Execute(job: Job, receipt: Option<Safety.Receipt>, store: JobStore, meanwhile: Trace, execution: Execution)
      returns (r: ExecutionResult)
      requires LegalRun(store.jobs, meanwhile)
      modifies this, store
      ensures calls == old(calls) + [(job, receipt)]
      ensures store.jobs == After(old(store.jobs), meanwhile)
      ensures r == ResultOf(execution)
      ensures r == match execution
                   case Returned(result) => result
                   case Threw(message) =>
                     ExecutionResult(Retryable, Some("EXECUTOR_EXCEPTION"), Some(message), 0.0)
    {
      calls := calls + [(job, receipt)];
      store.Others(meanwhile);
      match execution {
        case Returned(result) => r := result;
        case Threw(message) => r := ExecutionResult(Retryable, Some("EXECUTOR_EXCEPTION"), Some(message), 0.0);
      }
    }
  }

  class Worker {
    const id: WorkerId
    const leaseSeconds: real
    const boundary: seq<Safety.Path>
    const resolve: string -> Safety.Path
    const store: JobStore
    const executor: Executor
    var audit: seq<(JobId, string)>

    constructor (id: WorkerId, leaseSeconds: real, boundary: seq<Safety.Path>, resolve: string -> Safety.Path,
                 store: JobStore, executor: Executor)
      ensures this.id == id && this.leaseSeconds == leaseSeconds && this.boundary == boundary && this.resolve == resolve
      ensures this.store == store && this.executor == executor && audit == []
    {
      this.id, this.leaseSeconds, this.boundary, this.resolve := id, leaseSeconds, boundary, resolve;
      this.store, this.executor, this.audit := store, executor, [];
    }

    /** `provider` is what the authorization provider does with a job and `execution` what the executor does
        with it.  `picked` and `claimed` are the claimed job and the table right after
        the claim, `found` the table when the decision to settle or give up is taken. */
    method RunOnce(provider: Job -> Provision, execution: Job -> Execution, i: Interference, clock: Clock)
      returns (r: RunResult, ghost picked: JobId, ghost claimed: Table, ghost found: Table)
      requires StoreOk(store.jobs) && Rely(i, id)
      modifies this, store, executor
      ensures leaseSeconds <= 0.0 ==>
                r == Raised(ValueError) && store.jobs == old(store.jobs) && executor.calls == old(executor.calls)
                && audit == old(audit)
      ensures leaseSeconds > 0.0 && NothingEligible(old(store.jobs), clock.claim) ==>
                r == Idle && store.jobs == old(store.jobs) && executor.calls == old(executor.calls)
                && audit == old(audit)
      ensures leaseSeconds > 0.0 && !NothingEligible(old(store.jobs), clock.claim) ==>
                && IsNext(old(store.jobs), clock.claim, picked)
                && claimed == old(store.jobs)[picked := Claimed(old(store.jobs)[picked], id, leaseSeconds, clock.claim)]
                && Coordinated(this, Job(picked, claimed[picked]), provider(Job(picked, claimed[picked])),
                               execution(Job(picked, claimed[picked])), i, clock, claimed, old(executor.calls),
                               old(audit) + [(picked, "CLAIMED")], found, r)
                && (QuietAtSettlement(i) ==>
                      var job := Job(picked, claimed[picked]);
                      Concluded(claimed, picked, id, DecisionOf(this, job, provider(job)), ResultOf(execution(job)),
                                clock, found, store.jobs, r))
                && Called(old(executor.calls), executor.calls, boundary, resolve, Job(picked, claimed[picked]),
                          provider(Job(picked, claimed[picked])))
    {
      picked, claimed, found := "", store.jobs, store.jobs;
      var claim := store.Claim(id, leaseSeconds, clock.claim);
      if claim.Err? {
        return Raised(claim.error), picked, claimed, found;
      }
      if claim.value.None? {
        return Idle, picked, claimed, found;
      }
      var job := claim.value.value;
      picked, claimed := job.id, store.jobs;
      assert claimed == old(store.jobs)[picked := Claimed(old(store.jobs)[picked], id, leaseSeconds, clock.claim)];
      audit := audit + [(job.id, "CLAIMED")];
      r, found := Coordinate(job, provider, execution, i, clock);
      if QuietAtSettlement(i) {
        var e := Event(Call.Claim(id, leaseSeconds, Some(picked)), clock.claim);
        RowOkKept(old(store.jobs)[picked], picked, e);
        ClaimToConclusion(this, job, provider(job), execution(job), i, clock, claimed, old(executor.calls),
                          old(audit) + [(picked, "CLAIMED")], found, r);
      }
      OnlyThroughGate(this, job, provider(job), execution(job), i, clock, claimed, old(executor.calls),
                      old(audit) + [(picked, "CLAIMED")], found, r);
    }

    /** `run_once` after its claim. */
    method Coordinate(job: Job, provider: Job -> Provision, execution: Job -> Execution, i: Interference, clock: Clock)
      returns (r: RunResult, ghost found: Table)
      requires Rely(i, id) && job.id in store.jobs && store.jobs[job.id] == job.row
      modifies this, store, executor
      ensures Coordinated(this, job, provider(job), execution(job), i, clock, old(store.jobs), old(executor.calls),
                          old(audit), found, r)
    {
      ghost var claimed := store.jobs;
      store.Others(i.gate(store.jobs));
      ScopeKept(claimed, i.gate(claimed), job.id);
      var provision := provider(job);
      if provision.ProviderThrew? {
        return Raised(OtherError), store.jobs;
      }
      var receipt := provision.receipt;
      var decision := SafetyDecision(boundary, resolve, job.row, receipt);
      if !decision.allowed {
        audit := audit + [(job.id, "BLOCKED")];
        found := store.jobs;
        r := Deny(job.id, decision.reason, clock.settle);
        return;
      }
      audit := audit + [(job.id, "APPROVED")];
      r, found := Proceed(job, receipt, execution(job), i, clock);
      if !r.Raised? {
        audit := audit + [(job.id, StateName(r.job.row.state))];
      }
    }

    /** The approved branch: execute, read again, and settle the job if it is still held. */
    method Proceed(job: Job, receipt: Option<Safety.Receipt>, execution: Execution, i: Interference, clock: Clock)
      returns (r: RunResult, ghost found: Table)
      requires Rely(i, id) && job.id in store.jobs
      modifies store, executor
      ensures executor.calls == old(executor.calls) + [(job, receipt)]
      ensures found == After(old(store.jobs), i.during(old(store.jobs)))
      ensures Settled(found, job.id, id, ResultOf(execution), i, clock, store.jobs, r) && !r.Idle?
    {
      ghost var gated := store.jobs;
      var result := executor.Execute(job, receipt, store, i.during(store.jobs), execution);
      ScopeKept(gated, i.during(gated), job.id);
      found := store.jobs;
      var current := store.Get(job.id);
      var row := current.value.row;
      if (row.state != Running && row.state != Verifying) || row.worker != Some(id) {
        r := Race(current.value);
      } else {
        r := Settle(job.id, result, i, clock);
      }
    }

    /** The refusal branch of `run_once`. */
    method Deny(job: JobId, reason: string, now: Time) returns (r: RunResult)
      requires job in store.jobs
      modifies this, store
      ensures Wrote(old(store.jobs), Call.Fail(job, id, "UNSAFE_OPERATION", reason), now, store.jobs, r)
      ensures audit == old(audit) + (if r.Raised? then [] else [(job, "FAILED")])
    {
      ApplyAddressed(store.jobs, Event(Call.Fail(job, id, "UNSAFE_OPERATION", reason), now));
      var failed := store.Fail(job, id, "UNSAFE_OPERATION", reason, now);
      if failed.Err? {
        return Raised(failed.error);
      }
      audit := audit + [(job, "FAILED")];
      r := Finished(Job(job, failed.value));
    }

    /** The settling writes of `run_once`, once the second read has found the job still held. */
    method Settle(job: JobId, result: ExecutionResult, i: Interference, clock: Clock) returns (r: RunResult)
      requires Rely(i, id) && job in store.jobs && HeldBy(store.jobs[job], id)
      modifies store
      ensures Settled(old(store.jobs), job, id, result, i, clock, store.jobs, r)
      ensures !r.Idle? && !r.Race?
    {
      store.Others(i.settle(store.jobs));
      if result.status == Success {
        r := Confirm(job, i.commit, clock);
      } else {
        r := WriteOff(job, result, clock.settle);
      }
    }

    /** The two writes of a success. */
    method Confirm(job: JobId, commit: Environment, clock: Clock) returns (r: RunResult)
      requires Others(commit, id)
      modifies store
      ensures Verified(old(store.jobs), job, id, commit, clock, store.jobs, r)
      ensures !r.Idle? && !r.Race?
    {
      ApplyAddressed(store.jobs, Event(Call.BeginVerification(job, id), clock.settle));
      var begun := store.BeginVerification(job, id, clock.settle);
      if begun.Err? {
        return Raised(begun.error);
      }
      store.Others(commit(store.jobs));
      ApplyAddressed(store.jobs, Event(Call.CompleteVerification(job, id), clock.commit));
      var completed := store.CompleteVerification(job, id, clock.commit);
      if completed.Err? {
        return Raised(completed.error);
      }
      r := Finished(Job(job, completed.value));
    }

    /** The one write of any other status. */
    method WriteOff(job: JobId, result: ExecutionResult, now: Time) returns (r: RunResult)
      requires result.status != Success
      modifies store
      ensures Wrote(old(store.jobs), SettlingCall(job, id, result), now, store.jobs, r)
      ensures !r.Idle? && !r.Race?
    {
      ApplyAddressed(store.jobs, Event(SettlingCall(job, id, result), now));
      var written: Result<Row, Error>;
      if result.status == CancelledByExecutor {
        written := store.Cancel(job, now);
      } else if result.status == Retryable {
        written := store.Retry(job, id, NonEmpty(result.code).GetOr("RETRYABLE"),
                               NonEmpty(result.message).GetOr("retryable execution failure"), Max(0.0, result.delay),
                               now);
      } else {
        written := store.Fail(job, id, NonEmpty(result.code).GetOr(StatusName(result.status)),
                              NonEmpty(result.message).GetOr("execution failed"), now);
      }
      if written.Err? {
        return Raised(written.error);
      }
      r := Finished(Job(job, written.value));
    }
  }

  /** Everything `run_once` does after claiming `job`, from the table `claimed`. */
  ghost predicate Coordinated(w: Worker, job: Job, provision: Provision, execution: Execution, i: Interference,
                              clock: Clock, claimed: Table, calls: seq<(Job, Option<Safety.Receipt>)>,
                              audited: seq<(JobId, string)>, found: Table, r: RunResult)
    reads w, w.store, w.executor
  {
    var gated := After(claimed, i.gate(claimed));
    match provision
    case ProviderThrew =>
      && r == Raised(OtherError)
      && found == gated
      && w.store.jobs == found
      && w.executor.calls == calls
      && w.audit == audited
    case Provided(receipt) =>
      var decision := SafetyDecision(w.boundary, w.resolve, job.row, receipt);
      if decision.allowed
      then
        && w.executor.calls == calls + [(job, receipt)]
        && found == After(gated, i.during(gated))
        && Settled(found, job.id, w.id, ResultOf(execution), i, clock, w.store.jobs, r)
        && !r.Idle?
        && w.audit == audited + [(job.id, "APPROVED")]
           + (if r.Raised? then [] else [(job.id, StateName(r.job.row.state))])
      else
        && w.executor.calls == calls
        && found == gated
        && Wrote(gated, Call.Fail(job.id, w.id, "UNSAFE_OPERATION", decision.reason), clock.settle, w.store.jobs, r)
        && w.audit == audited + [(job.id, "BLOCKED")] + (if r.Raised? then [] else [(job.id, "FAILED")])
  }

  /** The executor has been called once, with this job and what the provider gave, if the gate is open to them, and
      not at all otherwise. */
  ghost predicate Called(before: seq<(Job, Option<Safety.Receipt>)>, calls: seq<(Job, Option<Safety.Receipt>)>,
                         boundary: seq<Safety.Path>, resolve: string -> Safety.Path, job: Job, provision: Provision)
  {
    calls == if provision.Provided? && GateOpen(boundary, resolve, job.row.request, provision.receipt)
             then before + [(job, provision.receipt)] else before
  }

  // ---------- what the protocol guarantees ----------

  lemma OnlyThroughGate(w: Worker, job: Job, provision: Provision, execution: Execution, i: Interference, clock: Clock,
                        claimed: Table, calls: seq<(Job, Option<Safety.Receipt>)>, audited: seq<(JobId, string)>,
                        found: Table, r: RunResult)
    requires Coordinated(w, job, provision, execution, i, clock, claimed, calls, audited, found, r)
    ensures Called(calls, w.executor.calls, w.boundary, w.resolve, job, provision)
  {
    if provision.Provided? {
      GateAllowsIff(w.boundary, w.resolve, job.row, provision.receipt);
    }
  }

  lemma StillRunning(jobs: Table, trace: Trace, id: JobId, w: WorkerId)
    requires StoreOk(jobs) && LegalRun(jobs, trace) && NotBy(trace, w)
    requires id in jobs && HeldBy(jobs[id], w) && id in After(jobs, trace) && HeldBy(After(jobs, trace)[id], w)
    ensures After(jobs, trace)[id].attempts == jobs[id].attempts
    ensures jobs[id].state == Running ==> After(jobs, trace)[id].state == Running
  {
    forall k | 0 <= k < |trace|
      ensures !ClaimsFor(trace[k].call, id, w) && trace[k].call != Call.BeginVerification(id, w)
    {
      assert !Presents(trace[k].call, w);
    }
    HeldThroughout(jobs, trace, id, w);
  }

  /** The row a settled job ends in, in terms of the row the worker claimed. */
  ghost predicate Outcome(claimed: Row, row: Row, result: ExecutionResult, clock: Clock) {
    && row.worker.None? && row.leaseUntil.None? && row.request == claimed.request
    && match result.status
       case Success => row.state == Completed && row.progress == 1.0 && row.completed == Some(clock.commit)
                       && row.attempts == claimed.attempts
       case CancelledByExecutor => row.state == Cancelled && row.attempts == claimed.attempts
       case Retryable =>
         && row.attempts == claimed.attempts + 1
         && row.errorCode == Some(if result.code in {None, Some("")} then "RETRYABLE" else result.code.value)
         && row.errorMessage == Some(if result.message in {None, Some("")} then "retryable execution failure"
                                     else result.message.value)
         && if row.attempts >= claimed.request.maxAttempts then row.state == Failed
            else row.state == Queued
                 && row.retryAt == Some(clock.settle + if result.delay > 0.0 then result.delay else 0.0)
       case _ =>
         && row.state == Failed && row.attempts == claimed.attempts + 1
         && row.errorCode == Some(if result.code !in {None, Some("")} then result.code.value
                                  else if result.status == UnsafeFailure then "UNSAFE" else "PERMANENT")
         && row.errorMessage == Some(if result.message in {None, Some("")} then "execution failed"
                                     else result.message.value)
  }

  lemma HeldSettlement(found: Table, id: JobId, w: WorkerId, result: ExecutionResult, i: Interference,
                       clock: Clock, after: Table, r: RunResult)
    requires id in found && RowOk(found[id]) && HeldBy(found[id], w) && found[id].state == Running
    requires i.settle(found) == [] && forall jobs :: i.commit(jobs) == []
    requires Settled(found, id, w, result, i, clock, after, r)
    ensures id in after && r == Finished(Job(id, after[id])) && after == found[id := after[id]]
    ensures Outcome(found[id], after[id], result, clock)
  {
    if result.status == Success {
      var begun := found[id := Write(found[id], Call.BeginVerification(id, w), clock.settle)];
      assert After(begun, i.commit(begun)) == begun;
      assert Succeeds(begun, Call.CompleteVerification(id, w));
    } else {
      assert Succeeds(found, SettlingCall(id, w, result));
    }
  }

  /** With nobody stepping in between the second read and the writes, `run_once` never raises after a claim:
      it leaves a job it no longer holds exactly as found, or settles it as the executor's status says,
      reaching COMPLETED exactly on success (from VERIFYING), and changes no other job. */
  lemma QuietSettlement(claimed: Table, between: Trace, id: JobId, w: WorkerId, result: ExecutionResult,
                        i: Interference, clock: Clock, after: Table, r: RunResult)
    requires StoreOk(claimed) && id in claimed && HeldBy(claimed[id], w) && claimed[id].state == Running
    requires LegalRun(claimed, between) && NotBy(between, w)
    requires i.settle(After(claimed, between)) == [] && forall jobs :: i.commit(jobs) == []
    requires Settled(After(claimed, between), id, w, result, i, clock, after, r)
    ensures var found := After(claimed, between);
            && id in found
            && if HeldBy(found[id], w)
               then && id in after && r == Finished(Job(id, after[id])) && after == found[id := after[id]]
                    && Outcome(claimed[id], after[id], result, clock)
               else after == found && r == Race(Job(id, found[id]))
  {
    var found := After(claimed, between);
    ScopeKept(claimed, between, id);
    StoreOkAlways(claimed, between);
    if HeldBy(found[id], w) {
      StillRunning(claimed, between, id, w);
      HeldSettlement(found, id, w, result, i, clock, after, r);
    }
  }

  /** What has become of the job `id`, claimed in `claimed`, when `run_once` ends; `found` is the table when it
      decided, and `decision` what the gate said, if it was asked. */
  ghost predicate Concluded(claimed: Table, id: JobId, w: WorkerId, decision: Option<Safety.Decision>,
                            result: ExecutionResult, clock: Clock, found: Table, after: Table, r: RunResult)
    requires id in claimed
  {
    && id in found
    && if decision.None? then r == Raised(OtherError) && after == found
       else if !HeldBy(found[id], w) then
         after == found && r == if decision.value.allowed then Race(Job(id, found[id])) else Raised(ValueError)
       else
         && id in after && after == found[id := after[id]] && r == Finished(Job(id, after[id]))
         && if decision.value.allowed then Outcome(claimed[id], after[id], result, clock)
            else RefusedRow(claimed[id], after[id], decision.value.reason)
  }

  predicate RefusedRow(claimed: Row, row: Row, reason: string) {
    && row.state == Failed && row.attempts == claimed.attempts + 1 && row.request == claimed.request
    && row.worker.None? && row.leaseUntil.None?
    && row.errorCode == Some("UNSAFE_OPERATION") && row.errorMessage == Some(reason)
  }

  ghost predicate QuietAtSettlement(i: Interference) {
    forall jobs :: i.settle(jobs) == [] && i.commit(jobs) == []
  }

  function DecisionOf(w: Worker, job: Job, provision: Provision): Option<Safety.Decision> {
    match provision
    case Provided(receipt) => Some(SafetyDecision(w.boundary, w.resolve, job.row, receipt))
    case ProviderThrew => None
  }

  lemma RefusedConclusion(claimed: Table, gate: Trace, id: JobId, w: WorkerId, reason: string, now: Time, after: Table,
                          r: RunResult)
    requires StoreOk(claimed) && id in claimed && HeldBy(claimed[id], w) && LegalRun(claimed, gate) && NotBy(gate, w)
    requires Wrote(After(claimed, gate), Call.Fail(id, w, "UNSAFE_OPERATION", reason), now, after, r)
    ensures var found := After(claimed, gate);
            && id in found
            && if HeldBy(found[id], w)
               then && id in after && r == Finished(Job(id, after[id])) && after == found[id := after[id]]
                    && RefusedRow(claimed[id], after[id], reason)
               else after == found && r == Raised(ValueError)
  {
    ScopeKept(claimed, gate, id);
    if HeldBy(After(claimed, gate)[id], w) {
      StillRunning(claimed, gate, id, w);
    }
  }

  /** From the claim to the end, whatever others do while the authorization is fetched and while the executor
      runs, as long as nobody steps between the second read and the writes: a raising provider leaves the job as
      the others left it; a job the worker lost is not touched; a job it still holds is failed when the gate refuses
      it, and otherwise ends as the executor's answer says, with attempts counted from the claimed row. */
  lemma ClaimToConclusion(w: Worker, job: Job, provision: Provision, execution: Execution, i: Interference,
                          clock: Clock,
                          claimed: Table, calls: seq<(Job, Option<Safety.Receipt>)>, audited: seq<(JobId, string)>,
                          found: Table, r: RunResult)
    requires StoreOk(claimed) && job.id in claimed && HeldBy(claimed[job.id], w.id) && claimed[job.id].state == Running
    requires Rely(i, w.id) && QuietAtSettlement(i)
    requires Coordinated(w, job, provision, execution, i, clock, claimed, calls, audited, found, r)
    ensures Concluded(claimed, job.id, w.id, DecisionOf(w, job, provision), ResultOf(execution), clock, found,
                      w.store.jobs, r)
  {
    var gate := i.gate(claimed);
    var gated := After(claimed, gate);
    if provision.ProviderThrew? {
      ScopeKept(claimed, gate, job.id);
    } else if DecisionOf(w, job, provision).value.allowed {
      var between := gate + i.during(gated);
      RunsCompose(claimed, gate, i.during(gated));
      assert found == After(claimed, between);
      QuietSettlement(claimed, between, job.id, w.id, ResultOf(execution), i, clock, w.store.jobs, r);
    } else {
      RefusedConclusion(claimed, gate, job.id, w.id, DecisionOf(w, job, provision).value.reason, clock.settle,
                        w.store.jobs, r);
    }
  }

  /** With the transfer executor: a held RUNNING job ends COMPLETED exactly when it is an UPLOAD or DOWNLOAD with source
      and destination, was given no receipt but one for a transfer, and the transfer succeeded. */
  lemma TransferCompletesIff(p: RetryPolicy, receipt: Option<Safety.Receipt>, outcome: TransferOutcome, found: Table,
                             id: JobId, w: WorkerId, i: Interference, clock: Clock, after: Table, r: RunResult)
    requires ValidPolicy(p)
    requires id in found && RowOk(found[id]) && HeldBy(found[id], w) && found[id].state == Running
    requires i.settle(found) == [] && forall jobs :: i.commit(jobs) == []
    requires Settled(found, id, w, Execute(p, found[id], receipt, outcome), i, clock, after, r)
    ensures id in after
    ensures var q := found[id].request;
            after[id].state == Completed <==>
              && (q.kind == Upload || q.kind == Download)
              && q.source != None && q.source != Some("") && q.destination != None && q.destination != Some("")
              && (receipt.Some? ==> receipt.value.operation == Safety.Transfer)
              && outcome.success
  {
    SucceedsIff(p, found[id], receipt, outcome);
    HeldSettlement(found, id, w, Execute(p, found[id], receipt, outcome), i, clock, after, r);
  }

  /** Whatever happens in the gaps, every settling write but one is fenced: a write that takes effect on a job
      the worker does not hold is a cancellation the executor asked for.  This is the exact condition. */
  lemma OnlyCancelIsUnfenced(before: Table, id: JobId, w: WorkerId, result: ExecutionResult)
    requires StoreOk(before) && id in before && !HeldBy(before[id], w)
    ensures !Succeeds(before, Call.BeginVerification(id, w)) && !Succeeds(before, Call.CompleteVerification(id, w))
    ensures result.status != Success ==>
              (Succeeds(before, SettlingCall(id, w, result))
               <==> result.status == CancelledByExecutor && !Terminal(before[id]))
  {}

  /** And it does happen: the lease runs out after the second read, another worker claims the job, and the
      first worker's CANCELLED cancels it under the second worker's feet. */
  lemma CancelStrikesAnotherWorker(found: Table, id: JobId, w: WorkerId, v: WorkerId, now: Time)
    requires found.Keys == {id} && RowOk(found[id]) && HeldBy(found[id], w) && v != w
    requires found[id].leaseUntil.value < now
    ensures var steal := [Event(Recover, now), Event(Call.Claim(v, 1.0, Some(id)), now)];
            && LegalRun(found, steal) && NotBy(steal, w)
            && HeldBy(After(found, steal)[id], v)
            && Succeeds(After(found, steal), SettlingCall(id, w, ExecutionResult(CancelledByExecutor, None, None, 0.0)))
  {
    var recover, claim := Event(Recover, now), Event(Call.Claim(v, 1.0, Some(id)), now);
    var steal := [recover, claim];
    assert steal[..1] == [recover] && [recover][..0] == [];
    assert After(found, [recover]) == Apply(found, recover);
    assert Apply(found, recover)[id] == Requeued(found[id], now);
    assert IsNext(Apply(found, recover), now, id);
    assert LegalRun(found, [recover]);
    assert After(found, steal) == Apply(Apply(found, recover), claim);
  }
}
