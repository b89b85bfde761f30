/** What every run of the job queue keeps (teldrive_lab/jobs.py), proved one row at a time. */
module JobRuns {
  import opened Base
  import opened Jobs

  // ---------- the inductive invariant ----------

  predicate RowOk(row: Row) {
    && (Held(row) <==> row.worker.Some?)
    && (Held(row) <==> row.leaseUntil.Some?)
    && 0 <= row.attempts <= row.request.maxAttempts
    && 1 <= row.request.maxAttempts
    && (row.attempts == row.request.maxAttempts ==> row.state == Failed)
    && (row.state == Failed ==> row.attempts >= 1)
    && 0.0 <= row.progress <= 1.0
    && (row.state == Verifying ==> row.progress <= VERIFYING_CAP)
    && (row.state == Completed <==> row.completed.Some?)
    && (row.state == Completed ==> row.progress == 1.0)
    && (Held(row) || row.state == Completed || row.state == Paused || row.attempts > 0 ==> row.started.Some?)
  }

  predicate StoreOk(jobs: Table) {
    forall id :: id in jobs ==> RowOk(jobs[id])
  }

  /** The event can happen to this row: a claim only picks an eligible one. */
  predicate Possible(row: Row, id: JobId, e: Event) {
    e.call.Claim? && ValidArguments(e.call) && e.call.pick == Some(id) ==> Eligible(row, e.now)
  }

  lemma LegalIsPossible(jobs: Table, e: Event, id: JobId)
    requires Legal(jobs, e) && id in jobs
    ensures Possible(jobs[id], id, e)
    ensures id in Apply(jobs, e) && Apply(jobs, e)[id] == RowAfter(jobs[id], id, e)
  {}

  lemma RowOkKept(row: Row, id: JobId, e: Event)
    requires RowOk(row) && Possible(row, id, e)
    ensures RowOk(RowAfter(row, id, e))
  {}

  lemma {:induction false} StoreOkAlways(jobs: Table, trace: Trace)
    requires StoreOk(jobs) && LegalRun(jobs, trace)
    ensures StoreOk(After(jobs, trace))
  {
    if trace != [] {
      var init, e := trace[..|trace| - 1], trace[|trace| - 1];
      StoreOkAlways(jobs, init);
      var before := After(jobs, init);
      forall id | id in Apply(before, e) ensures RowOk(Apply(before, e)[id]) {
        if id in before {
          LegalIsPossible(before, e, id);
          RowOkKept(before[id], id, e);
        }
      }
    }
  }

  /** Every store reachable from the empty one satisfies the invariant. */
  lemma ReachableOk(trace: Trace)
    requires LegalRun(map[], trace)
    ensures StoreOk(After(map[], trace))
  {
    StoreOkAlways(map[], trace);
  }

  // ---------- state edges ----------

  /** The transitions JOB_MODEL.md allows. */
  const DOCUMENTED: set<(JobState, JobState)> := {
    (Queued, Running), (Queued, Cancelled),
    (Running, Paused), (Running, Verifying), (Running, Queued), (Running, Failed), (Running, Cancelled),
    (Paused, Queued), (Paused, Cancelled),
    (Verifying, Completed), (Verifying, Queued), (Verifying, Failed)
  }

  /** The two the code adds. */
  const UNDOCUMENTED: set<(JobState, JobState)> := { (Running, Completed), (Verifying, Cancelled) }

  ghost predicate Realised(from: JobState, to: JobState) {
    exists row, id, e :: RowOk(row) && Possible(row, id, e) && row.state == from
                         && RowAfter(row, id, e).state == to
  }

  function Sample(state: JobState): Row {
    var held := state == Running || state == Verifying;
    Row(Request(Index, "NORMAL", 3, None, None, None, None, None), 0.0, state,
        Some(0.0), 0.0, if state == Completed then Some(0.0) else None,
        if state == Failed then 1 else 0, None,
        if state == Completed then 1.0 else 0.0, None, None,
        if held then Some("w") else None, if held then Some(1.0) else None)
  }

  function Driver(to: JobState): Call {
    match to
    case Queued => Call.Retry("j", "w", "", "", 0.0)
    case Running => Call.Claim("w", 1.0, Some("j"))
    case Paused => Call.Pause("j", None)
    case Verifying => Call.BeginVerification("j", "w")
    case Completed => Call.Complete("j", "w")
    case Failed => Call.Fail("j", "w", "", "")
    case Cancelled => Call.Cancel("j")
  }

  function Mover(from: JobState, to: JobState): Call {
    if from == Paused && to == Queued then Call.Resume("j")
    else if from == Verifying && to == Completed then Call.CompleteVerification("j", "w")
    else Driver(to)
  }

  lemma EdgeAllowed(row: Row, id: JobId, e: Event)
    requires Possible(row, id, e)
    ensures var to := RowAfter(row, id, e).state;
            to == row.state || (row.state, to) in DOCUMENTED + UNDOCUMENTED
  {}

  lemma EdgeRealised(from: JobState, to: JobState)
    requires (from, to) in DOCUMENTED + UNDOCUMENTED
    ensures Realised(from, to)
  {
    var e := Event(Mover(from, to), 0.0);
    var row := Sample(from);
    assert RowOk(row) && Possible(row, "j", e);
    assert RowAfter(row, "j", e).state == to;
  }

  /** The state graph of the code is the documented one plus exactly two edges. */
  lemma StateEdges(from: JobState, to: JobState)
    requires from != to
    ensures Realised(from, to) <==> (from, to) in DOCUMENTED + UNDOCUMENTED
  {
    if (from, to) in DOCUMENTED + UNDOCUMENTED {
      EdgeRealised(from, to);
    } else if Realised(from, to) {
      var row, id, e :| RowOk(row) && Possible(row, id, e) && row.state == from && RowAfter(row, id, e).state == to;
      EdgeAllowed(row, id, e);
    }
  }

  // ---------- what never changes ----------

  lemma RowKeepsScope(row: Row, id: JobId, e: Event)
    requires Possible(row, id, e)
    ensures var next := RowAfter(row, id, e);
            && next.request == row.request && next.created == row.created
            && next.attempts >= row.attempts
            && (row.started.Some? ==> next.started == row.started)
            && (Terminal(row) ==> next == row)
  {}

  /** Over any further run a job stays in the table with the request it was enqueued with, its attempts
      never go down, its start time is set once, and a terminal row is frozen. */
  lemma {:induction false} ScopeKept(jobs: Table, trace: Trace, id: JobId)
    requires LegalRun(jobs, trace) && id in jobs
    ensures id in After(jobs, trace)
    ensures var row, next := jobs[id], After(jobs, trace)[id];
            && next.request == row.request && next.created == row.created
            && next.attempts >= row.attempts
            && (row.started.Some? ==> next.started == row.started)
            && (Terminal(row) ==> next == row)
  {
    if trace != [] {
      var init, e := trace[..|trace| - 1], trace[|trace| - 1];
      ScopeKept(jobs, init, id);
      LegalIsPossible(After(jobs, init), e, id);
      RowKeepsScope(After(jobs, init)[id], id, e);
    }
  }

  // ---------- fencing ----------

  /** A call only the current holder may make on `id`, made by `w`. */
  predicate Fenced(call: Call, id: JobId, w: WorkerId) {
    match call
    case Renew(j, x, _) => j == id && x == w
    case Progress(j, x, _) => j == id && x == w
    case BeginVerification(j, x) => j == id && x == w
    case CompleteVerification(j, x) => j == id && x == w
    case Pause(j, owner) => j == id && owner == Some(w)
    case Complete(j, x) => j == id && x == w
    case Fail(j, x, _, _) => j == id && x == w
    case Retry(j, x, _, _, _) => j == id && x == w
    case _ => false
  }

  predicate ClaimsFor(call: Call, id: JobId, w: WorkerId) {
    call.Claim? && call.worker == w && call.pick == Some(id)
  }

  lemma OnlyClaimInstallsWorker(row: Row, id: JobId, e: Event, w: WorkerId)
    requires row.worker != Some(w) && !ClaimsFor(e.call, id, w)
    ensures RowAfter(row, id, e).worker != Some(w)
    ensures Fenced(e.call, id, w) ==> RowAfter(row, id, e) == row
  {}

  /** Once `w` does not hold `id`, and until it claims `id` itself, every fenced call it makes on `id`
      is refused and leaves the whole table as it was. */
  lemma {:induction false} StaleWorkerFenced(jobs: Table, trace: Trace, id: JobId, w: WorkerId)
    requires id in jobs && jobs[id].worker != Some(w) && LegalRun(jobs, trace)
    requires forall k :: 0 <= k < |trace| ==> !ClaimsFor(trace[k].call, id, w)
    ensures id in After(jobs, trace) && After(jobs, trace)[id].worker != Some(w)
    ensures forall k :: 0 <= k < |trace| && Fenced(trace[k].call, id, w) ==>
              && !Succeeds(After(jobs, trace[..k]), trace[k].call)
              && After(jobs, trace[..k + 1]) == After(jobs, trace[..k])
  {
    if trace != [] {
      var n := |trace| - 1;
      var init, e := trace[..n], trace[n];
      StaleWorkerFenced(jobs, init, id, w);
      var before := After(jobs, init);
      LegalIsPossible(before, e, id);
      OnlyClaimInstallsWorker(before[id], id, e, w);
      forall k | 0 <= k < |trace| && Fenced(trace[k].call, id, w)
        ensures && !Succeeds(After(jobs, trace[..k]), trace[k].call)
                && After(jobs, trace[..k + 1]) == After(jobs, trace[..k])
      {
        if k < n {
          assert trace[..k] == init[..k] && trace[..k + 1] == init[..k + 1];
        } else {
          assert trace[..k + 1] == trace;
          ApplyAddressed(before, e);
        }
      }
    }
  }

  /** The ways to lose a job: recovery, pause, cancel and every settlement clear the owner, whoever it was. */
  lemma LosingAJob(row: Row, id: JobId, e: Event)
    requires RowOk(row) && Held(row) && Possible(row, id, e)
    ensures RowAfter(row, id, e).worker.None? <==> !Held(RowAfter(row, id, e))
    ensures RowAfter(row, id, e).worker.None? || RowAfter(row, id, e).worker == row.worker
  {}

  lemma HeldStep(row: Row, id: JobId, e: Event, w: WorkerId)
    requires RowOk(row) && Possible(row, id, e) && !ClaimsFor(e.call, id, w) && HeldBy(RowAfter(row, id, e), w)
    ensures HeldBy(row, w) && RowAfter(row, id, e).attempts == row.attempts
    ensures row.state == Running && e.call != BeginVerification(id, w) ==> RowAfter(row, id, e).state == Running
  {
    if !HeldBy(row, w) {
      OnlyClaimInstallsWorker(row, id, e, w);
      assert false;
    }
  }

  /** While one worker keeps a job, its attempt count and its claim stand still. */
  lemma {:induction false} HeldThroughout(jobs: Table, trace: Trace, id: JobId, w: WorkerId)
    requires StoreOk(jobs) && LegalRun(jobs, trace) && id in jobs && HeldBy(jobs[id], w)
    requires forall k :: 0 <= k < |trace| ==> !ClaimsFor(trace[k].call, id, w)
    requires id in After(jobs, trace) && HeldBy(After(jobs, trace)[id], w)
    ensures After(jobs, trace)[id].attempts == jobs[id].attempts
    ensures jobs[id].state == Running && (forall k :: 0 <= k < |trace| ==> trace[k].call != BeginVerification(id, w))
            ==> After(jobs, trace)[id].state == Running
  {
    if trace != [] {
      var n := |trace| - 1;
      var init, e := trace[..n], trace[n];
      ScopeKept(jobs, init, id);
      StoreOkAlways(jobs, init);
      var before := After(jobs, init);
      LegalIsPossible(before, e, id);
      HeldStep(before[id], id, e, w);
      HeldThroughout(jobs, init, id, w);
    }
  }

  // ---------- counting what happened to a job ----------

  datatype Effect = Nothing | Claiming | Recovering | Pausing | CancellingHeld | CompletingDirect | CompletingVerified

  /** What event `e` achieves on the row `row` of job `id`. */
  function RowEffect(row: Row, e: Event, id: JobId): Effect {
    if !ValidArguments(e.call) then Nothing
    else match e.call
      case Claim(_, _, pick) => if pick == Some(id) then Claiming else Nothing
      case Recover => if Expired(row, e.now) then Recovering else Nothing
      case Pause(j, _) => if j == id && Accepts(row, e.call) then Pausing else Nothing
      case Cancel(j) => if j == id && Held(row) then CancellingHeld else Nothing
      case Complete(j, _) => if j == id && Accepts(row, e.call) then CompletingDirect else Nothing
      case CompleteVerification(j, _) => if j == id && Accepts(row, e.call) then CompletingVerified else Nothing
      case _ => Nothing
  }

  function EffectOn(jobs: Table, e: Event, id: JobId): Effect {
    if id in jobs then RowEffect(jobs[id], e, id) else Nothing
  }

  function Count(jobs: Table, trace: Trace, id: JobId, effect: Effect): nat {
    if trace == [] then 0
    else
      var init := trace[..|trace| - 1];
      Count(jobs, init, id, effect)
      + (if EffectOn(After(jobs, init), trace[|trace| - 1], id) == effect then 1 else 0)
  }

  function Open(row: Row): nat { if Held(row) || row.state == Completed then 1 else 0 }

  function One(b: bool): nat { if b then 1 else 0 }

  /** One event moves both sides of the claim account by the same amount. */
  lemma AccountStep(row: Row, id: JobId, e: Event)
    requires RowOk(row) && Possible(row, id, e)
    ensures var next, effect := RowAfter(row, id, e), RowEffect(row, e, id);
            && One(effect == Claiming)
               == (next.attempts - row.attempts) + One(effect == Recovering) + One(effect == Pausing)
                  + (Open(next) - Open(row)) + One(effect == CancellingHeld)
            && (effect == CancellingHeld ==> row.state != Cancelled && next.state == Cancelled)
  {}

  /** A job that is not yet in the table has no history. */
  lemma {:induction false} NoHistory(trace: Trace, id: JobId, effect: Effect)
    requires LegalRun(map[], trace) && id !in After(map[], trace) && effect != Nothing
    ensures Count(map[], trace, id, effect) == 0
  {
    if trace != [] {
      NoHistory(trace[..|trace| - 1], id, effect);
    }
  }

  /** In every run from the empty store: each claim of a job is accounted for by an attempt, a lease
      recovery, a pause, the current hold or completion, or a cancellation that struck while it was held. */
  lemma {:induction false} ClaimAccounting(trace: Trace, id: JobId)
    requires LegalRun(map[], trace) && id in After(map[], trace)
    ensures var row := After(map[], trace)[id];
            && Count(map[], trace, id, Claiming)
               == row.attempts + Count(map[], trace, id, Recovering) + Count(map[], trace, id, Pausing)
                  + Open(row) + Count(map[], trace, id, CancellingHeld)
            && Count(map[], trace, id, CancellingHeld) <= One(row.state == Cancelled)
  {
    var init, e := trace[..|trace| - 1], trace[|trace| - 1];
    var before := After(map[], init);
    if id in before {
      ClaimAccounting(init, id);
      ReachableOk(init);
      LegalIsPossible(before, e, id);
      AccountStep(before[id], id, e);
      RowKeepsScope(before[id], id, e);
    } else {
      NoHistory(init, id, Claiming);
      NoHistory(init, id, Recovering);
      NoHistory(init, id, Pausing);
      NoHistory(init, id, CancellingHeld);
    }
  }

  /** A job is claimed at most max_attempts times plus once per recovery and per pause. */
  lemma ClaimsBounded(trace: Trace, id: JobId)
    requires LegalRun(map[], trace) && id in After(map[], trace)
    ensures Count(map[], trace, id, Claiming)
            <= After(map[], trace)[id].request.maxAttempts
               + Count(map[], trace, id, Recovering) + Count(map[], trace, id, Pausing)
  {
    ClaimAccounting(trace, id);
    ReachableOk(trace);
  }

  function Finished(jobs: Table, id: JobId): nat { One(id in jobs && jobs[id].state == Completed) }

  lemma CompletionStep(jobs: Table, e: Event, id: JobId)
    requires Legal(jobs, e)
    ensures Finished(Apply(jobs, e), id)
         == Finished(jobs, id) + One(EffectOn(jobs, e, id) == CompletingDirect)
            + One(EffectOn(jobs, e, id) == CompletingVerified)
  {
    if id in jobs {
      LegalIsPossible(jobs, e, id);
    }
  }

  /** A job is completed at most once, and exactly once when its state is COMPLETED. */
  lemma {:induction false} CompletedOnce(trace: Trace, id: JobId)
    requires LegalRun(map[], trace)
    ensures Count(map[], trace, id, CompletingDirect) + Count(map[], trace, id, CompletingVerified)
            == Finished(After(map[], trace), id)
  {
    if trace != [] {
      var init, e := trace[..|trace| - 1], trace[|trace| - 1];
      CompletedOnce(init, id);
      CompletionStep(After(map[], init), e, id);
    }
  }

  // ---------- where the code falls short of its documentation ----------

  const ONCE := Request(Index, "NORMAL", 1, None, None, None, None, None)

  function Time2(n: nat): Time { 2.0 * n as real }

  /** Enqueue a one-attempt job, then let its lease run out `n` times. */
  function Abandoned(n: nat): Trace {
    if n == 0 then [Event(Call.Enqueue("j", ONCE), 0.0), Event(Call.Claim("w", 1.0, Some("j")), 0.0)]
    else Abandoned(n - 1) + [Event(Recover, Time2(n)), Event(Call.Claim("w", 1.0, Some("j")), Time2(n))]
  }

  lemma AddEvent(jobs: Table, trace: Trace, e: Event, id: JobId, effect: Effect)
    ensures After(jobs, trace + [e]) == Apply(After(jobs, trace), e)
    ensures LegalRun(jobs, trace + [e]) <==> LegalRun(jobs, trace) && Legal(After(jobs, trace), e)
    ensures Count(jobs, trace + [e], id, effect)
            == Count(jobs, trace, id, effect) + One(EffectOn(After(jobs, trace), e, id) == effect)
  {
    assert (trace + [e])[..|trace|] == trace;
  }

  /** The table after `Abandoned(n)`. */
  predicate Hanging(jobs: Table, n: nat) {
    && jobs.Keys == {"j"} && jobs["j"].state == Running && jobs["j"].worker == Some("w")
    && jobs["j"].leaseUntil == Some(Time2(n) + 1.0)
    && jobs["j"].attempts == 0 && jobs["j"].request.maxAttempts == 1
  }

  lemma HangingAgain(jobs: Table, n: nat)
    requires Hanging(jobs, n)
    ensures var r, c := Event(Recover, Time2(n + 1)), Event(Call.Claim("w", 1.0, Some("j")), Time2(n + 1));
            && Legal(jobs, r) && Legal(Apply(jobs, r), c) && Hanging(Apply(Apply(jobs, r), c), n + 1)
            && EffectOn(jobs, r, "j") == Recovering && EffectOn(Apply(jobs, r), c, "j") == Claiming
  {
    var r := Event(Recover, Time2(n + 1));
    assert Apply(jobs, r)["j"] == Requeued(jobs["j"], Time2(n + 1));
    assert IsNext(Apply(jobs, r), Time2(n + 1), "j");
  }

  lemma AddTwo(jobs: Table, trace: Trace, r: Event, c: Event, id: JobId)
    ensures var between := Apply(After(jobs, trace), r);
      && After(jobs, trace + [r, c]) == Apply(between, c)
      && (LegalRun(jobs, trace + [r, c])
          <==> LegalRun(jobs, trace) && Legal(After(jobs, trace), r) && Legal(between, c))
      && Count(jobs, trace + [r, c], id, Claiming)
         == Count(jobs, trace, id, Claiming) + One(EffectOn(After(jobs, trace), r, id) == Claiming)
            + One(EffectOn(between, c, id) == Claiming)
  {
    AddEvent(jobs, trace, r, id, Claiming);
    AddEvent(jobs, trace + [r], c, id, Claiming);
    assert trace + [r] + [c] == trace + [r, c];
  }

  lemma FirstHanging()
    ensures LegalRun(map[], Abandoned(0)) && Hanging(After(map[], Abandoned(0)), 0)
    ensures Count(map[], Abandoned(0), "j", Claiming) == 1
  {
    var a, b := Event(Call.Enqueue("j", ONCE), 0.0), Event(Call.Claim("w", 1.0, Some("j")), 0.0);
    AddEvent(map[], [], a, "j", Claiming);
    assert [] + [a] == [a];
    assert After(map[], [a]) == map["j" := Fresh(ONCE, 0.0)];
    AddEvent(map[], [a], b, "j", Claiming);
    assert [a] + [b] == Abandoned(0);
    assert IsNext(After(map[], [a]), 0.0, "j");
  }

  lemma OnceMore(before: Trace, n: nat)
    requires LegalRun(map[], before) && Hanging(After(map[], before), n)
    ensures var longer := before + [Event(Recover, Time2(n + 1)), Event(Call.Claim("w", 1.0, Some("j")), Time2(n + 1))];
            && LegalRun(map[], longer) && Hanging(After(map[], longer), n + 1)
            && Count(map[], longer, "j", Claiming) == Count(map[], before, "j", Claiming) + 1
  {
    HangingAgain(After(map[], before), n);
    AddTwo(map[], before, Event(Recover, Time2(n + 1)), Event(Call.Claim("w", 1.0, Some("j")), Time2(n + 1)), "j");
  }

  /** A lease that runs out spends no attempt, so `max_attempts` alone does not bound the claims of a job. */
  lemma {:induction false} RecoveryIsUnbounded(n: nat)
    ensures LegalRun(map[], Abandoned(n)) && Hanging(After(map[], Abandoned(n)), n)
    ensures Count(map[], Abandoned(n), "j", Claiming) == n + 1
  {
    if n == 0 {
      FirstHanging();
    } else {
      RecoveryIsUnbounded(n - 1);
      OnceMore(Abandoned(n - 1), n - 1);
    }
  }

  /** The step at position `k` takes the job from VERIFYING to COMPLETED. */
  predicate CompletesVerified(trace: Trace, id: JobId, k: nat)
    requires k < |trace|
  {
    var before, after := After(map[], trace[..k]), After(map[], trace[..k + 1]);
    id in before && before[id].state == Verifying && id in after && after[id].state == Completed
  }

  /** The step at position `k` is a call of `complete` on the job by the worker that holds it, RUNNING. */
  predicate CompletesDirectly(trace: Trace, id: JobId, k: nat)
    requires k < |trace|
  {
    MeetsComplete(After(map[], trace[..k]), trace[k].call, id)
  }

  predicate MeetsComplete(jobs: Table, call: Call, id: JobId) {
    call.Complete? && call.id == id && id in jobs && jobs[id].state == Running && jobs[id].worker == Some(call.worker)
  }

  predicate Done(jobs: Table, id: JobId) { id in jobs && jobs[id].state == Completed }

  /** A job becomes COMPLETED by one of the two ways, and only then. */
  lemma BecomesDone(jobs: Table, e: Event, id: JobId)
    requires Legal(jobs, e) && !Done(jobs, id)
    ensures Done(Apply(jobs, e), id) ==> id in jobs && (jobs[id].state == Verifying || MeetsComplete(jobs, e.call, id))
    ensures MeetsComplete(jobs, e.call, id) ==> Done(Apply(jobs, e), id)
  {
    if id in jobs {
      LegalIsPossible(jobs, e, id);
    }
  }

  lemma {:induction false} DoneStays(trace: Trace, id: JobId, k: nat)
    requires LegalRun(map[], trace) && k <= |trace| && Done(After(map[], trace[..k]), id)
    ensures Done(After(map[], trace), id)
    decreases |trace|
  {
    if k < |trace| {
      var init, e := trace[..|trace| - 1], trace[|trace| - 1];
      assert init[..k] == trace[..k];
      DoneStays(init, id, k);
      LegalIsPossible(After(map[], init), e, id);
    } else {
      assert trace[..k] == trace;
    }
  }

  /** Positions of a run and of its prefix. */
  lemma SamePrefixes(trace: Trace, n: nat)
    requires n <= |trace|
    ensures forall k :: 0 <= k <= n ==> trace[..n][..k] == trace[..k]
  {}

  /** The governing rule of JOB_MODEL.md is that a job completes only after verification.  `complete` skips it: a
      COMPLETED job came from VERIFYING exactly when no call of `complete` ever met its guard, RUNNING and held by
      the caller. */
  lemma {:induction false} CompletedFromVerifyingIff(trace: Trace, id: JobId)
    requires LegalRun(map[], trace) && Done(After(map[], trace), id)
    ensures (exists k: nat :: k < |trace| && CompletesVerified(trace, id, k))
       <==> !(exists k: nat :: k < |trace| && CompletesDirectly(trace, id, k))
    decreases |trace|
  {
    var n := |trace| - 1;
    var init, e := trace[..n], trace[n];
    SamePrefixes(trace, n);
    assert trace[..n + 1] == trace;
    if Done(After(map[], init), id) {
      CompletedFromVerifyingIff(init, id);
      forall k: nat | k < n
        ensures CompletesVerified(trace, id, k) == CompletesVerified(init, id, k)
        ensures CompletesDirectly(trace, id, k) == CompletesDirectly(init, id, k)
      {
        assert trace[..k] == init[..k] && trace[..k + 1] == init[..k + 1];
      }
      assert !CompletesVerified(trace, id, n) && !CompletesDirectly(trace, id, n);
    } else {
      BecomesDone(After(map[], init), e, id);
      forall k: nat | k < n ensures !CompletesVerified(trace, id, k) && !CompletesDirectly(trace, id, k) {
        NotDoneEarlier(trace, id, n, k);
      }
      assert CompletesVerified(trace, id, n) <==> !CompletesDirectly(trace, id, n);
    }
  }

  lemma NotDoneEarlier(trace: Trace, id: JobId, n: nat, k: nat)
    requires LegalRun(map[], trace) && k < n < |trace| && LegalRun(map[], trace[..n])
             && !Done(After(map[], trace[..n]), id)
    ensures !CompletesVerified(trace, id, k) && !CompletesDirectly(trace, id, k)
  {
    SamePrefixes(trace, n);
    var init := trace[..n];
    if Done(After(map[], trace[..k + 1]), id) {
      DoneStays(init, id, k + 1);
    }
    LegalPrefix(trace, k + 1);
    assert trace[..k + 1][..k] == trace[..k];
    if !Done(After(map[], trace[..k]), id) {
      BecomesDone(After(map[], trace[..k]), trace[k], id);
    } else {
      DoneStays(init, id, k);
    }
  }

  lemma {:induction false} LegalPrefix(trace: Trace, k: nat)
    requires LegalRun(map[], trace) && k <= |trace|
    ensures LegalRun(map[], trace[..k])
    decreases |trace|
  {
    if k == |trace| {
      assert trace[..k] == trace;
    } else {
      assert trace[..|trace| - 1][..k] == trace[..k];
      LegalPrefix(trace[..|trace| - 1], k);
    }
  }

  /** So where nobody calls `complete` on the job, it is COMPLETED only straight from VERIFYING. */
  lemma WithoutCompleteOnlyVerified(trace: Trace, id: JobId)
    requires LegalRun(map[], trace) && Done(After(map[], trace), id)
    requires forall k :: 0 <= k < |trace| ==> !(trace[k].call.Complete? && trace[k].call.id == id)
    ensures exists k: nat :: k < |trace| && CompletesVerified(trace, id, k)
  {
    CompletedFromVerifyingIff(trace, id);
  }

  lemma HangingCompletes(jobs: Table, n: nat)
    requires Hanging(jobs, n)
    ensures Done(Apply(jobs, Event(Call.Complete("j", "w"), 0.0)), "j")
  {}

  /** And a run exists in which a job is COMPLETED without ever having been in VERIFYING. */
  lemma CompleteSkipsVerification()
    ensures exists trace :: LegalRun(map[], trace) && Done(After(map[], trace), "j") && NeverVerifying(trace, "j")
  {
    var begun, last := Abandoned(0), Event(Call.Complete("j", "w"), 0.0);
    FirstHanging();
    AddEvent(map[], begun, last, "j", Nothing);
    HangingCompletes(After(map[], begun), 0);
    BegunRunning();
    StillNeverVerifying(begun, last, "j");
  }

  lemma StillNeverVerifying(trace: Trace, e: Event, id: JobId)
    requires NeverVerifying(trace, id)
    requires var end := After(map[], trace + [e]); id in end ==> end[id].state != Verifying
    ensures NeverVerifying(trace + [e], id)
  {
    forall k: nat | k <= |trace + [e]| ensures !InVerifying(trace + [e], id, k) {
      if k <= |trace| {
        assert (trace + [e])[..k] == trace[..k];
        assert !InVerifying(trace, id, k);
      } else {
        assert (trace + [e])[..k] == trace + [e];
      }
    }
  }

  predicate InVerifying(trace: Trace, id: JobId, k: nat)
    requires k <= |trace|
  {
    id in After(map[], trace[..k]) && After(map[], trace[..k])[id].state == Verifying
  }

  ghost predicate NeverVerifying(trace: Trace, id: JobId) {
    forall k: nat :: k <= |trace| ==> !InVerifying(trace, id, k)
  }

  lemma BegunRunning()
    ensures NeverVerifying(Abandoned(0), "j")
  {
    var a, b := Event(Call.Enqueue("j", ONCE), 0.0), Event(Call.Claim("w", 1.0, Some("j")), 0.0);
    assert [] + [a] == [a] && [a] + [b] == Abandoned(0);
    AddEvent(map[], [], a, "j", Claiming);
    StillNeverVerifying([], a, "j");
    FirstHanging();
    StillNeverVerifying([a], b, "j");
  }
}
