/** How far apart the claims of a retried job are, across the retry policy (teldrive_lab/retry.py), the
    transfer executor (teldrive_lab/transfer_executor.py), the worker (teldrive_lab/worker.py) and the
    job queue (teldrive_lab/jobs.py). */
module BackoffSpacing {
  import opened Base
  import opened Jobs
  import opened JobRuns
  import opened Retry

  predicate ClaimsJob(e: Event, id: JobId) {
    e.call.Claim? && ValidArguments(e.call) && e.call.pick == Some(id)
  }

  predicate ClaimedIn(trace: Trace, id: JobId) {
    exists k :: 0 <= k < |trace| && ClaimsJob(trace[k], id)
  }

  lemma WaitingRow(row: Row, id: JobId, e: Event, r: Time)
    requires Possible(row, id, e)
    requires row.state == Cancelled || (row.state == Queued && row.retryAt == Some(r))
    ensures if ClaimsJob(e, id) then e.now >= r
            else RowAfter(row, id, e).state == Cancelled
                 || (RowAfter(row, id, e).state == Queued && RowAfter(row, id, e).retryAt == Some(r))
  {}

  /** A queued job with a retry time is left alone until then: with a clock that does not run backwards
      no later claim of it comes earlier. */
  lemma {:induction false} NoClaimBefore(jobs: Table, trace: Trace, id: JobId, r: Time)
    requires id in jobs && jobs[id].state == Queued && jobs[id].retryAt == Some(r)
    requires LegalRun(jobs, trace) && Monotone(trace)
    ensures forall k :: 0 <= k < |trace| && ClaimsJob(trace[k], id) ==> trace[k].now >= r
    ensures id in After(jobs, trace)
    ensures !ClaimedIn(trace, id) ==>
              var row := After(jobs, trace)[id];
              row.state == Cancelled || (row.state == Queued && row.retryAt == Some(r))
  {
    if trace != [] {
      var n := |trace| - 1;
      var init, e := trace[..n], trace[n];
      NoClaimBefore(jobs, init, id, r);
      LegalIsPossible(After(jobs, init), e, id);
      if ClaimedIn(init, id) {
        var k :| 0 <= k < |init| && ClaimsJob(init[k], id);
        assert trace[k] == init[k] && trace[k].now <= e.now;
      } else {
        WaitingRow(After(jobs, init)[id], id, e, r);
        if !ClaimedIn(trace, id) {
          assert !ClaimsJob(trace[n], id);
        }
      }
    }
  }

  /** `delay` is what the worker records because the executor, handed the row as claimed, asked for a retry. */
  ghost predicate Asked(p: RetryPolicy, row: Row, delay: real) {
    exists receipt, outcome ::
      ValidPolicy(p) && Execute(p, row, receipt, outcome).status == Retryable
      && delay == Max(0.0, Execute(p, row, receipt, outcome).delay)
  }

  predicate WaitsFor(p: RetryPolicy, attempt: int, delay: real) {
    ValidPolicy(p) && attempt >= 1 && delay == Backoff(p, attempt)
  }

  lemma AskedDelay(p: RetryPolicy, row: Row, delay: real)
    requires row.attempts >= 0 && Asked(p, row, delay)
    ensures WaitsFor(p, row.attempts + 1, delay)
  {
    var receipt, outcome :|
      ValidPolicy(p) && Execute(p, row, receipt, outcome).status == Retryable
      && delay == Max(0.0, Execute(p, row, receipt, outcome).delay);
    RetryableDelay(p, row, receipt, outcome);
    BackoffBounds(p, row.attempts + 1);
  }

  /** The retry has recorded one attempt more than `claimed` had; it ends the job exactly when that was the
      last one, and otherwise nobody claims the job again before `until`. */
  ghost predicate Recorded(claimed: Row, id: JobId, until: Time, after: Table, later: Trace) {
    && id in after && after[id].attempts == claimed.attempts + 1
    && (after[id].state == Failed <==> claimed.attempts + 1 == claimed.request.maxAttempts)
    && (after[id].state != Failed ==>
          forall k :: 0 <= k < |later| && ClaimsJob(later[k], id) ==> later[k].now >= until)
  }

  /** A retry the holder records with a delay is respected by every later claim. */
  lemma RetryThenWait(found: Table, id: JobId, worker: WorkerId, code: string, message: string, delay: real,
                      t: Time, later: Trace)
    requires StoreOk(found) && delay >= 0.0 && id in found && HeldBy(found[id], worker)
    requires LegalRun(Apply(found, Event(Call.Retry(id, worker, code, message, delay), t)), later) && Monotone(later)
    ensures Recorded(found[id], id, t + delay, Apply(found, Event(Call.Retry(id, worker, code, message, delay), t)),
                     later)
  {
    var e := Event(Call.Retry(id, worker, code, message, delay), t);
    var after := Apply(found, e);
    assert after[id] == Write(found[id], e.call, t);
    if after[id].state != Failed {
      NoClaimBefore(after, later, id, t + delay);
    }
  }

  lemma RetryAfterHold(start: Table, during: Trace, id: JobId, worker: WorkerId, code: string, message: string,
                       delay: real, t: Time, later: Trace)
    requires StoreOk(start) && delay >= 0.0 && id in start && HeldBy(start[id], worker) && LegalRun(start, during)
    requires forall k :: 0 <= k < |during| ==> !ClaimsFor(during[k].call, id, worker)
    requires id in After(start, during) && HeldBy(After(start, during)[id], worker)
    requires LegalRun(Apply(After(start, during), Event(Call.Retry(id, worker, code, message, delay), t)), later)
    requires Monotone(later)
    ensures Recorded(start[id], id, t + delay,
                     Apply(After(start, during), Event(Call.Retry(id, worker, code, message, delay), t)), later)
  {
    HeldThroughout(start, during, id, worker);
    ScopeKept(start, during, id);
    StoreOkAlways(start, during);
    RetryThenWait(After(start, during), id, worker, code, message, delay, t, later);
  }

  /** Whatever the policy, receipt and outcome: asked for on this row, `delay` is the backoff of the attempt
      about to be recorded. */
  ghost predicate IsBackoff(row: Row, delay: real) {
    forall p :: Asked(p, row, delay) ==> WaitsFor(p, row.attempts + 1, delay)
  }

  lemma AskedIsBackoff(row: Row, delay: real)
    requires row.attempts >= 0
    ensures IsBackoff(row, delay)
  {
    forall p | Asked(p, row, delay) ensures WaitsFor(p, row.attempts + 1, delay) {
      AskedDelay(p, row, delay);
    }
  }

  /** From the claim to the next claim.  A worker claims a job; anything may happen while the executor runs
      as long as nobody else uses this worker's id and the worker still holds the job; then it records a
      retry at time `t`.  This records one attempt more than the claim saw; with attempts left, nobody claims
      the job again before `t` plus the recorded delay.  When the transfer executor asked for the retry,
      under whatever policy, that delay is the exponential backoff of the attempt recorded, whatever the
      jitter setting is. */
  lemma BackoffHonoured(start: Table, during: Trace, id: JobId, worker: WorkerId, code: string, message: string,
                        delay: real, t: Time, later: Trace)
    requires StoreOk(start) && delay >= 0.0 && id in start && HeldBy(start[id], worker) && LegalRun(start, during)
    requires forall k :: 0 <= k < |during| ==> !ClaimsFor(during[k].call, id, worker)
    requires id in After(start, during) && HeldBy(After(start, during)[id], worker)
    requires LegalRun(Apply(After(start, during), Event(Call.Retry(id, worker, code, message, delay), t)), later)
    requires Monotone(later)
    ensures IsBackoff(start[id], delay)
    ensures Recorded(start[id], id, t + delay,
                     Apply(After(start, during), Event(Call.Retry(id, worker, code, message, delay), t)), later)
  {
    AskedIsBackoff(start[id], delay);
    RetryAfterHold(start, during, id, worker, code, message, delay, t, later);
  }

  // ---------- whole histories ----------

  /** First claim, last claim, and the attempts on record at the last one. */
  datatype History = Unclaimed | Claimed(first: Time, last: Time, spent: int)

  function Record(h: History, row: Row, id: JobId, e: Event): History {
    if !ClaimsJob(e, id) then h
    else if h.Unclaimed? then History.Claimed(e.now, e.now, row.attempts)
    else History.Claimed(h.first, e.now, row.attempts)
  }

  function HistoryOf(trace: Trace, id: JobId): History {
    if trace == [] then Unclaimed
    else
      var init := trace[..|trace| - 1];
      var before, h := After(map[], init), HistoryOf(init, id);
      if id in before then Record(h, before[id], id, trace[|trace| - 1]) else h
  }

  function TotalBackoff(p: RetryPolicy, attempts: int): real {
    if attempts <= 0 then 0.0 else TotalBackoff(p, attempts - 1) + Backoff(p, attempts)
  }

  /** It starts at nothing, and each attempt adds its own backoff. */
  lemma TotalBackoffAdds(p: RetryPolicy, attempts: nat)
    ensures TotalBackoff(p, 0) == 0.0
    ensures TotalBackoff(p, attempts + 1) - TotalBackoff(p, attempts) == Backoff(p, attempts + 1)
  {}

  /** A retry recorded on this row carries at least the backoff of the attempt it records. */
  predicate SpacedRetry(p: RetryPolicy, row: Row, id: JobId, call: Call) {
    call.Retry? && call.id == id && ValidArguments(call) && Accepts(row, call) && row.attempts >= 0 ==>
      call.delay >= Backoff(p, row.attempts + 1)
  }

  predicate SpacedRun(p: RetryPolicy, trace: Trace, id: JobId) {
    trace == [] ||
    var init := trace[..|trace| - 1];
    && SpacedRun(p, init, id)
    && (id in After(map[], init) ==> SpacedRetry(p, After(map[], init)[id], id, trace[|trace| - 1].call))
  }

  ghost predicate Spaced(p: RetryPolicy, h: History, row: Row) {
    match h
    case Unclaimed => row.attempts == 0 && !Held(row) && row.state != Paused && row.state != Failed
    case Claimed(first, last, spent) =>
      && last - first >= TotalBackoff(p, spent)
      && (|| Terminal(row)
          || row.attempts == spent
          || (row.state == Queued && row.retryAt.Some? && row.retryAt.value >= first + TotalBackoff(p, row.attempts)))
  }

  lemma SpacedStep(p: RetryPolicy, h: History, row: Row, id: JobId, e: Event)
    requires ValidPolicy(p) && RowOk(row) && Possible(row, id, e) && Spaced(p, h, row)
    requires SpacedRetry(p, row, id, e.call)
    requires h.Claimed? ==> h.last <= e.now
    ensures Spaced(p, Record(h, row, id, e), RowAfter(row, id, e))
  {
    if e.call.Retry? && e.call.id == id && Accepts(row, e.call) && ValidArguments(e.call) {
      var a := row.attempts;
      assert TotalBackoff(p, a + 1) == TotalBackoff(p, a) + Backoff(p, a + 1);
    }
  }

  /** With a clock that does not run backwards, and retries recorded with at least the backoff of their
      attempt, the first and last claims of a job are at least the sum of the backoffs of all attempts
      recorded in between apart, however many pauses and lease recoveries also happened. */
  lemma {:induction false} ClaimsSpacedOut(p: RetryPolicy, trace: Trace, id: JobId)
    requires ValidPolicy(p) && LegalRun(map[], trace) && Monotone(trace) && SpacedRun(p, trace, id)
    ensures var h := HistoryOf(trace, id);
            && (h.Claimed? ==>
                  h.last - h.first >= TotalBackoff(p, h.spent) && trace != [] && h.last <= trace[|trace| - 1].now)
            && (id !in After(map[], trace) ==> h.Unclaimed?)
            && (id in After(map[], trace) ==> Spaced(p, h, After(map[], trace)[id]))
  {
    if trace != [] {
      var n := |trace| - 1;
      var init, e := trace[..n], trace[n];
      ClaimsSpacedOut(p, init, id);
      ReachableOk(init);
      var before, h := After(map[], init), HistoryOf(init, id);
      if id in before {
        LegalIsPossible(before, e, id);
        if h.Claimed? {
          assert init[|init| - 1] == trace[n - 1] && trace[n - 1].now <= e.now;
        }
        SpacedStep(p, h, before[id], id, e);
      }
    }
  }

  lemma {:induction false} SpacedPrefix(p: RetryPolicy, trace: Trace, id: JobId, n: nat)
    requires SpacedRun(p, trace, id) && n <= |trace|
    ensures SpacedRun(p, trace[..n], id)
    decreases |trace|
  {
    if n == |trace| {
      assert trace[..n] == trace;
    } else {
      assert trace[..|trace| - 1][..n] == trace[..n];
      SpacedPrefix(p, trace[..|trace| - 1], id, n);
    }
  }

  lemma {:induction false} NotYetClaimed(trace: Trace, id: JobId, n: nat)
    requires n <= |trace| && forall k :: 0 <= k < n ==> !ClaimsJob(trace[k], id)
    ensures HistoryOf(trace[..n], id) == Unclaimed
  {
    if n > 0 {
      NotYetClaimed(trace, id, n - 1);
      assert trace[..n][..n - 1] == trace[..n - 1] && trace[..n][n - 1] == trace[n - 1];
    }
  }

  lemma {:induction false} ClaimedSince(trace: Trace, id: JobId, i: nat, n: nat)
    requires LegalRun(map[], trace) && i < n <= |trace| && ClaimsJob(trace[i], id)
    requires forall k :: 0 <= k < i ==> !ClaimsJob(trace[k], id)
    ensures HistoryOf(trace[..n], id).Claimed? && HistoryOf(trace[..n], id).first == trace[i].now
    ensures ClaimsJob(trace[n - 1], id) ==>
              && id in After(map[], trace[..n - 1]) && HistoryOf(trace[..n], id).last == trace[n - 1].now
              && HistoryOf(trace[..n], id).spent == After(map[], trace[..n - 1])[id].attempts
    decreases n
  {
    assert trace[..n][..n - 1] == trace[..n - 1] && trace[..n][n - 1] == trace[n - 1];
    LegalPrefix(trace, n);
    if n == i + 1 {
      NotYetClaimed(trace, id, i);
    } else {
      ClaimedSince(trace, id, i, n - 1);
    }
  }

  /** The first claim of a job and any later one are at least the backoffs of all attempts then on record apart. */
  lemma ClaimsApart(p: RetryPolicy, trace: Trace, id: JobId, i: nat, j: nat)
    requires ValidPolicy(p) && LegalRun(map[], trace) && Monotone(trace) && SpacedRun(p, trace, id)
    requires i <= j < |trace| && ClaimsJob(trace[i], id) && ClaimsJob(trace[j], id)
    requires forall k :: 0 <= k < i ==> !ClaimsJob(trace[k], id)
    ensures id in After(map[], trace[..j])
    ensures trace[j].now - trace[i].now >= TotalBackoff(p, After(map[], trace[..j])[id].attempts)
  {
    ClaimedSince(trace, id, i, j + 1);
    LegalPrefix(trace, j + 1);
    SpacedPrefix(p, trace, id, j + 1);
    ClaimsSpacedOut(p, trace[..j + 1], id);
  }

  // ---------- retries the executor asked for ----------

  /** The row of the job as its last claim handed it out. */
  function LastClaimed(trace: Trace, id: JobId): Option<Row> {
    if trace == [] then None
    else
      var init, e := trace[..|trace| - 1], trace[|trace| - 1];
      if id in After(map[], init) && ClaimsJob(e, id) then Some(After(map[], trace)[id]) else LastClaimed(init, id)
  }

  /** Whoever holds a job sees the attempts its last claim saw. */
  ghost predicate Unspent(last: Option<Row>, row: Row) {
    Held(row) ==> last.Some? && last.value.attempts == row.attempts
  }

  lemma UnspentStep(row: Row, id: JobId, e: Event, last: Option<Row>)
    requires RowOk(row) && Possible(row, id, e) && !ClaimsJob(e, id) && Unspent(last, row)
    ensures Unspent(last, RowAfter(row, id, e))
  {}

  lemma {:induction false} HolderSeesLastClaim(trace: Trace, id: JobId)
    requires LegalRun(map[], trace) && id in After(map[], trace)
    ensures Unspent(LastClaimed(trace, id), After(map[], trace)[id])
  {
    var init, e := trace[..|trace| - 1], trace[|trace| - 1];
    var before := After(map[], init);
    if id in before {
      HolderSeesLastClaim(init, id);
      ReachableOk(init);
      LegalIsPossible(before, e, id);
      if !ClaimsJob(e, id) {
        UnspentStep(before[id], id, e, LastClaimed(init, id));
      }
    }
  }

  /** The call is no retry that takes effect on the job, or one the executor asked for on the row as claimed. */
  ghost predicate AskedRetry(p: RetryPolicy, jobs: Table, id: JobId, call: Call, last: Option<Row>) {
    call.Retry? && call.id == id && Succeeds(jobs, call) ==> last.Some? && Asked(p, last.value, call.delay)
  }

  /** Every retry of the job comes from the transfer executor, handed the row as last claimed. */
  ghost predicate AskedRun(p: RetryPolicy, trace: Trace, id: JobId) {
    trace == [] ||
    var init := trace[..|trace| - 1];
    && AskedRun(p, init, id)
    && AskedRetry(p, After(map[], init), id, trace[|trace| - 1].call, LastClaimed(init, id))
  }

  lemma AskedIsSpaced(p: RetryPolicy, jobs: Table, id: JobId, call: Call, last: Option<Row>)
    requires id in jobs && RowOk(jobs[id]) && Unspent(last, jobs[id]) && AskedRetry(p, jobs, id, call, last)
    ensures SpacedRetry(p, jobs[id], id, call)
  {
    if call.Retry? && call.id == id && Succeeds(jobs, call) {
      AskedDelay(p, last.value, call.delay);
    }
  }

  lemma {:induction false} AskedRunsAreSpaced(p: RetryPolicy, trace: Trace, id: JobId)
    requires LegalRun(map[], trace) && AskedRun(p, trace, id)
    ensures SpacedRun(p, trace, id)
  {
    if trace != [] {
      var init, e := trace[..|trace| - 1], trace[|trace| - 1];
      AskedRunsAreSpaced(p, init, id);
      if id in After(map[], init) {
        HolderSeesLastClaim(init, id);
        ReachableOk(init);
        AskedIsSpaced(p, After(map[], init), id, e.call, LastClaimed(init, id));
      }
    }
  }

  /** So where all retries of a job come from the transfer executor, its claims are spread out: first and last are
      at least the sum of the exponential backoffs of all attempts recorded in between apart.  (An executor that
      raises is retried without a delay, and is no such retry.) */
  lemma AskedClaimsSpacedOut(p: RetryPolicy, trace: Trace, id: JobId)
    requires ValidPolicy(p) && LegalRun(map[], trace) && Monotone(trace) && AskedRun(p, trace, id)
    ensures var h := HistoryOf(trace, id);
            h.Claimed? ==> h.last - h.first >= TotalBackoff(p, h.spent)
    ensures forall i, j ::
      0 <= i <= j < |trace| && ClaimsJob(trace[i], id) && ClaimsJob(trace[j], id)
      && (forall k :: 0 <= k < i ==> !ClaimsJob(trace[k], id)) ==>
        && id in After(map[], trace[..j])
        && trace[j].now - trace[i].now >= TotalBackoff(p, After(map[], trace[..j])[id].attempts)
  {
    AskedRunsAreSpaced(p, trace, id);
    ClaimsSpacedOut(p, trace, id);
    forall i, j | 0 <= i <= j < |trace| && ClaimsJob(trace[i], id) && ClaimsJob(trace[j], id)
                  && (forall k :: 0 <= k < i ==> !ClaimsJob(trace[k], id))
      ensures && id in After(map[], trace[..j])
              && trace[j].now - trace[i].now >= TotalBackoff(p, After(map[], trace[..j])[id].attempts)
    {
      ClaimsApart(p, trace, id, i, j);
    }
  }
}
