/** Draining the queue is a sort (teldrive_lab/jobs.py, `claim`). */
module Queue {
  import opened Base
  import opened Jobs

  function EligibleIds(jobs: Table, now: Time): set<JobId> {
    set id | id in jobs && Eligible(jobs[id], now)
  }

  /** Claims at one instant, by any workers with any leases, each of which selects a row. */
  predicate Claims(trace: Trace, now: Time) {
    forall k :: 0 <= k < |trace| ==>
      && trace[k].now == now && trace[k].call.Claim? && trace[k].call.leaseSeconds > 0.0
      && trace[k].call.pick.Some?
  }

  function Picks(trace: Trace, now: Time): (r: seq<JobId>)
    requires Claims(trace, now)
    ensures |r| == |trace|
    ensures forall k :: 0 <= k < |r| ==> r[k] == trace[k].call.pick.value
  {
    seq(|trace|, k requires 0 <= k < |trace| => trace[k].call.pick.value)
  }

  /** Every listed job is in the table and none is listed before one that should precede it. */
  predicate InOrder(jobs: Table, picks: seq<JobId>) {
    && (forall k :: 0 <= k < |picks| ==> picks[k] in jobs)
    && (forall i, j :: 0 <= i < j < |picks| ==> Before(jobs[picks[i]], jobs[picks[j]]))
  }

  /** What is left after handing out `picks`: the eligible rows not yet handed out, untouched, each of
      which comes after everything already handed out. */
  predicate Handed(jobs: Table, picks: seq<JobId>, rest: Table, now: Time) {
    && rest.Keys == jobs.Keys
    && InOrder(jobs, picks)
    && (forall i, j :: 0 <= i < j < |picks| ==> picks[i] != picks[j])
    && (forall id :: id in picks ==> id in rest && Eligible(jobs[id], now) && !Eligible(rest[id], now))
    && (forall id :: id in jobs && id !in picks ==> rest[id] == jobs[id])
    && (forall i, id :: 0 <= i < |picks| && id in jobs && id !in picks && Eligible(jobs[id], now)
                        ==> Before(jobs[picks[i]], jobs[id]))
  }

  lemma HandedNext(jobs: Table, picks: seq<JobId>, rest: Table, now: Time, p: JobId, row: Row)
    requires Handed(jobs, picks, rest, now) && IsNext(rest, now, p) && !Eligible(row, now)
    ensures Handed(jobs, picks + [p], rest[p := row], now)
  {
    assert p !in picks && rest[p] == jobs[p];
    forall id | id in jobs && id !in picks + [p] ensures rest[p := row][id] == jobs[id] {
      assert id !in picks && id != p;
    }
    forall i, id | 0 <= i < |picks + [p]| && id in jobs && id !in picks + [p] && Eligible(jobs[id], now)
      ensures Before(jobs[(picks + [p])[i]], jobs[id])
    {
      assert id !in picks && rest[id] == jobs[id];
    }
  }

  lemma ClaimUpdates(before: Table, e: Event, p: JobId)
    requires e.call.Claim? && e.call.leaseSeconds > 0.0 && e.call.pick == Some(p) && p in before
    ensures Apply(before, e) == before[p := Claimed(before[p], e.call.worker, e.call.leaseSeconds, e.now)]
  {}

  lemma PicksNext(trace: Trace, now: Time)
    requires Claims(trace, now) && trace != []
    ensures var init := trace[..|trace| - 1];
            Claims(init, now) && Picks(trace, now) == Picks(init, now) + [trace[|trace| - 1].call.pick.value]
  {}

  /** A claim turns exactly the row it picks into one that is no longer eligible. */
  lemma ClaimIsNext(before: Table, e: Event, now: Time)
    requires e.now == now && e.call.Claim? && e.call.leaseSeconds > 0.0 && e.call.pick.Some? && Legal(before, e)
    ensures var p := e.call.pick.value;
            && IsNext(before, now, p)
            && Apply(before, e) == before[p := Claimed(before[p], e.call.worker, e.call.leaseSeconds, now)]
  {
    ClaimUpdates(before, e, e.call.pick.value);
  }

  lemma {:induction false} ClaimsSelectInOrder(jobs: Table, trace: Trace, now: Time)
    requires Claims(trace, now) && LegalRun(jobs, trace)
    ensures Handed(jobs, Picks(trace, now), After(jobs, trace), now)
  {
    if trace != [] {
      var n := |trace| - 1;
      var init, e := trace[..n], trace[n];
      ClaimsSelectInOrder(jobs, init, now);
      PicksNext(trace, now);
      var before, p := After(jobs, init), e.call.pick.value;
      ClaimIsNext(before, e, now);
      HandedNext(jobs, Picks(init, now), before, now, p, Apply(before, e)[p]);
    }
  }

  /** Claims at one instant followed by one that finds nothing: every eligible job is handed out exactly
      once, in non-decreasing (priority rank, created) order, and no other job is handed out at all; in
      particular none whose retry time is still to come. */
  lemma DrainingIsASort(jobs: Table, trace: Trace, now: Time, last: Event)
    requires Claims(trace, now) && LegalRun(jobs, trace + [last])
    requires last.now == now && last.call.Claim? && last.call.leaseSeconds > 0.0 && last.call.pick.None?
    ensures var picks := Picks(trace, now);
      && (forall id :: id in picks <==> id in EligibleIds(jobs, now))
      && |picks| == |EligibleIds(jobs, now)|
      && (forall i, j :: 0 <= i < j < |picks| ==> picks[i] != picks[j])
      && InOrder(jobs, picks)
      && (forall id :: id in jobs && jobs[id].retryAt.Some? && jobs[id].retryAt.value > now ==> id !in picks)
  {
    assert (trace + [last])[..|trace|] == trace;
    ClaimsSelectInOrder(jobs, trace, now);
    var picks := Picks(trace, now);
    assert NothingEligible(After(jobs, trace), now);
    forall id | id in jobs && id !in picks ensures !Eligible(jobs[id], now) {
      assert After(jobs, trace)[id] == jobs[id];
    }
    DistinctSize(picks);
    assert (set p | p in picks) == EligibleIds(jobs, now);
  }

  /** The same in words: the queued jobs with no retry time to come are handed out once each, CRITICAL before HIGH
      before NORMAL before LOW before any other word, and first come first served within a class. */
  lemma DrainInWords(jobs: Table, trace: Trace, now: Time, last: Event)
    requires Claims(trace, now) && LegalRun(jobs, trace + [last])
    requires last.now == now && last.call.Claim? && last.call.leaseSeconds > 0.0 && last.call.pick.None?
    ensures forall k :: 0 <= k < |trace| ==> trace[k].call.pick.value in jobs
    ensures forall id :: id in jobs ==>
      ((exists k :: 0 <= k < |trace| && trace[k].call.pick.value == id)
       <==> jobs[id].state == Queued && (jobs[id].retryAt.None? || jobs[id].retryAt.value <= now))
    ensures forall i, j :: 0 <= i < j < |trace| ==>
      var a, b := trace[i].call.pick.value, trace[j].call.pick.value;
      a != b && ServedAfter(jobs[a], jobs[b])
  {
    DrainingIsASort(jobs, trace, now, last);
    var picks := Picks(trace, now);
    forall id | id in jobs
      ensures (exists k :: 0 <= k < |trace| && trace[k].call.pick.value == id) <==> id in picks
    {
      if k :| 0 <= k < |trace| && trace[k].call.pick.value == id {
        assert picks[k] == id;
      }
      if k :| 0 <= k < |picks| && picks[k] == id {
        assert trace[k].call.pick.value == id;
      }
    }
    forall i, j | 0 <= i < j < |trace|
      ensures picks[i] != picks[j] && ServedAfter(jobs[picks[i]], jobs[picks[j]])
    {
      BeforeInWords(jobs[picks[i]], jobs[picks[j]]);
    }
  }

  lemma {:induction false} DistinctSize<T>(s: seq<T>)
    requires forall i, j :: 0 <= i < j < |s| ==> s[i] != s[j]
    ensures |set x | x in s| == |s|
  {
    if s != [] {
      DistinctSize(s[1..]);
      assert (set x | x in s) == {s[0]} + (set x | x in s[1..]);
    }
  }

  /** The drain always gets there: as long as something is eligible the next claim selects a row. */
  lemma DrainProgress(jobs: Table, now: Time, worker: WorkerId, seconds: real, pick: Option<JobId>)
    requires seconds > 0.0 && Legal(jobs, Event(Claim(worker, seconds, pick), now))
    ensures pick.None? <==> EligibleIds(jobs, now) == {}
    ensures pick.Some? ==>
      |EligibleIds(Apply(jobs, Event(Claim(worker, seconds, pick), now)), now)| == |EligibleIds(jobs, now)| - 1
  {
    var next := Apply(jobs, Event(Claim(worker, seconds, pick), now));
    if pick.Some? {
      assert pick.value in EligibleIds(jobs, now);
      assert EligibleIds(next, now) == EligibleIds(jobs, now) - {pick.value};
    } else if id :| id in EligibleIds(jobs, now) {
      assert false;
    }
  }
}
