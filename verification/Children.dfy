/** Parent and child jobs (teldrive_lab/jobs.py:57-74, 115-120, 146-155): the tally of a parent's children,
    what its two verdicts mean, and how long they last. */
module Children {
  import opened Base
  import opened Jobs
  import opened JobRuns

  datatype Summary = Summary(total: nat, queued: nat, running: nat, paused: nat, verifying: nat, completed: nat,
                             failed: nat, cancelled: nat)
  {
    predicate Terminal() { total > 0 && completed + failed + cancelled == total }

    predicate Successful() { Terminal() && completed == total }
  }

  /** The count of a state. */
  function CountOf(s: Summary, state: JobState): nat {
    match state
    case Queued => s.queued
    case Running => s.running
    case Paused => s.paused
    case Verifying => s.verifying
    case Completed => s.completed
    case Failed => s.failed
    case Cancelled => s.cancelled
  }

  function ChildIds(jobs: Table, parent: JobId): set<JobId> {
    set id | id in jobs && jobs[id].request.parent == Some(parent)
  }

  function InState(jobs: Table, ids: set<JobId>, state: JobState): set<JobId> {
    set id | id in ids && id in jobs && jobs[id].state == state
  }

  function CountIn(jobs: Table, ids: set<JobId>, state: JobState): nat { |InState(jobs, ids, state)| }

  lemma CountAdd(jobs: Table, ids: set<JobId>, id: JobId, state: JobState)
    requires id in jobs && id !in ids
    ensures CountIn(jobs, ids + {id}, state) == CountIn(jobs, ids, state) + if jobs[id].state == state then 1 else 0
  {
    var before := InState(jobs, ids, state);
    if jobs[id].state == state {
      assert InState(jobs, ids + {id}, state) == before + {id};
    } else {
      assert InState(jobs, ids + {id}, state) == before;
    }
  }

  /** The seven counts together. */
  function CountAll(jobs: Table, ids: set<JobId>): nat {
    CountIn(jobs, ids, Queued) + CountIn(jobs, ids, Running) + CountIn(jobs, ids, Paused)
    + CountIn(jobs, ids, Verifying) + CountIn(jobs, ids, Completed) + CountIn(jobs, ids, Failed)
    + CountIn(jobs, ids, Cancelled)
  }

  lemma CountNone(jobs: Table, ids: set<JobId>)
    requires ids == {}
    ensures CountAll(jobs, ids) == 0
  {
    forall state ensures CountIn(jobs, ids, state) == 0 {
      NoneOf(jobs, ids, state);
    }
  }

  lemma CountOneMore(jobs: Table, ids: set<JobId>, id: JobId)
    requires id in jobs && id !in ids
    ensures CountAll(jobs, ids + {id}) == CountAll(jobs, ids) + 1
  {
    forall state
      ensures CountIn(jobs, ids + {id}, state) == CountIn(jobs, ids, state) + if jobs[id].state == state then 1 else 0
    {
      CountAdd(jobs, ids, id, state);
    }
  }

  /** The states partition the jobs. */
  lemma {:induction false} CountsPartition(jobs: Table, ids: set<JobId>)
    requires ids <= jobs.Keys
    ensures CountAll(jobs, ids) == |ids|
    decreases |ids|
  {
    if ids == {} {
      CountNone(jobs, ids);
    } else {
      var id :| id in ids;
      var rest := ids - {id};
      CountsPartition(jobs, rest);
      assert rest + {id} == ids;
      CountOneMore(jobs, rest, id);
    }
  }

  lemma NoneOf(jobs: Table, ids: set<JobId>, state: JobState)
    ensures CountIn(jobs, ids, state) == 0 <==> forall id :: id in ids && id in jobs ==> jobs[id].state != state
  {
    var found := InState(jobs, ids, state);
    if found == {} {
      forall id | id in ids && id in jobs ensures jobs[id].state != state {
        assert id !in found;
      }
    } else {
      var id :| id in found;
    }
  }

  function SummaryOf(jobs: Table, ids: set<JobId>): Summary {
    Summary(|ids|, CountIn(jobs, ids, Queued), CountIn(jobs, ids, Running), CountIn(jobs, ids, Paused),
            CountIn(jobs, ids, Verifying), CountIn(jobs, ids, Completed), CountIn(jobs, ids, Failed),
            CountIn(jobs, ids, Cancelled))
  }

  /** What the two verdicts mean. */
  lemma VerdictsIff(jobs: Table, parent: JobId)
    ensures var ids, s := ChildIds(jobs, parent), SummaryOf(jobs, ChildIds(jobs, parent));
      && (s.Terminal() <==> ids != {} && forall id :: id in ids ==> Jobs.Terminal(jobs[id]))
      && (s.Successful() <==> ids != {} && forall id :: id in ids ==> jobs[id].state == Completed)
  {
    var ids := ChildIds(jobs, parent);
    var s := SummaryOf(jobs, ids);
    CountsPartition(jobs, ids);
    if s.Terminal() {
      NoneOf(jobs, ids, Queued);
      NoneOf(jobs, ids, Running);
      NoneOf(jobs, ids, Paused);
      NoneOf(jobs, ids, Verifying);
    }
    if s.Successful() {
      NoneOf(jobs, ids, Failed);
      NoneOf(jobs, ids, Cancelled);
    }
    if ids != {} && forall id :: id in ids ==> Jobs.Terminal(jobs[id]) {
      NoneOf(jobs, ids, Queued);
      NoneOf(jobs, ids, Running);
      NoneOf(jobs, ids, Paused);
      NoneOf(jobs, ids, Verifying);
      if forall id :: id in ids ==> jobs[id].state == Completed {
        NoneOf(jobs, ids, Failed);
        NoneOf(jobs, ids, Cancelled);
      }
    }
  }

  const STATES: set<JobState> := { Queued, Running, Paused, Verifying, Completed, Failed, Cancelled }

  ghost predicate Tallied(jobs: Table, ids: set<JobId>, counts: map<JobState, nat>) {
    forall state :: state in counts ==> counts[state] == CountIn(jobs, ids, state)
  }

  lemma NothingTallied(jobs: Table, ids: set<JobId>, counts: map<JobState, nat>)
    requires ids == {} && forall state :: state in counts ==> counts[state] == 0
    ensures Tallied(jobs, ids, counts)
  {
    forall state ensures CountIn(jobs, ids, state) == 0 {
      NoneOf(jobs, ids, state);
    }
  }

  lemma TallyOne(jobs: Table, ids: set<JobId>, counts: map<JobState, nat>, id: JobId)
    requires id in jobs && id !in ids && counts.Keys == STATES && Tallied(jobs, ids, counts)
    ensures jobs[id].state in counts
    ensures Tallied(jobs, ids + {id}, counts[jobs[id].state := counts[jobs[id].state] + 1])
  {
    forall state | state in counts
      ensures CountIn(jobs, ids + {id}, state) == CountIn(jobs, ids, state) + if jobs[id].state == state then 1 else 0
    {
      CountAdd(jobs, ids, id, state);
    }
  }

  /** The counting loop. */
  method CountStates(jobs: Table, children: set<JobId>) returns (counts: map<JobState, nat>)
    requires children <= jobs.Keys
    ensures counts.Keys == STATES && Tallied(jobs, children, counts)
  {
    counts := map state | state in STATES :: 0;
    var left := children;
    ghost var handled: set<JobId> := {};
    NothingTallied(jobs, handled, counts);
    while left != {}
      invariant left <= children && handled == children - left
      invariant counts.Keys == STATES && Tallied(jobs, handled, counts)
      decreases |left|
    {
      var id :| id in left;
      TallyOne(jobs, handled, counts, id);
      counts := counts[jobs[id].state := counts[jobs[id].state] + 1];
      left, handled := left - {id}, handled + {id};
    }
    assert handled == children;
  }

  method ChildSummary(store: JobStore, parent: JobId) returns (s: Summary)
    ensures s == SummaryOf(store.jobs, ChildIds(store.jobs, parent))
    ensures s.total == |set id | id in store.jobs && store.jobs[id].request.parent == Some(parent)|
    ensures forall state ::
      CountOf(s, state) == |set id | id in store.jobs && store.jobs[id].request.parent == Some(parent)
                                     && store.jobs[id].state == state|
  {
    var jobs := store.jobs;
    var children := set id | id in jobs && jobs[id].request.parent == Some(parent);
    var counts := CountStates(jobs, children);
    s := Summary(|children|, counts[Queued], counts[Running], counts[Paused], counts[Verifying], counts[Completed],
                 counts[Failed], counts[Cancelled]);
    assert children == ChildIds(jobs, parent);
    forall state
      ensures InState(jobs, children, state)
           == set id | id in jobs && jobs[id].request.parent == Some(parent) && jobs[id].state == state {}
  }

  // ---------- how long a verdict lasts ----------

  lemma EventKeepsChildren(jobs: Table, e: Event, parent: JobId)
    requires StoreOk(jobs) && Legal(jobs, e) && parent in jobs && Jobs.Terminal(jobs[parent])
    ensures var next := Apply(jobs, e);
      && parent in next && Jobs.Terminal(next[parent])
      && ChildIds(next, parent) == ChildIds(jobs, parent)
      && forall id :: id in ChildIds(jobs, parent) && Jobs.Terminal(jobs[id]) ==> next[id] == jobs[id]
  {
    forall id | id in jobs
      ensures RowAfter(jobs[id], id, e).request == jobs[id].request
      ensures Jobs.Terminal(jobs[id]) ==> RowAfter(jobs[id], id, e) == jobs[id]
    {
      LegalIsPossible(jobs, e, id);
      RowKeepsScope(jobs[id], id, e);
      RowOkKept(jobs[id], id, e);
    }
  }

  /** A job that has ended gets no more children, and children that have ended stay as they are: from a point
      where both hold, every summary of that parent in every later state is the same. */
  lemma {:induction false} SettledForGood(jobs: Table, trace: Trace, parent: JobId)
    requires StoreOk(jobs) && LegalRun(jobs, trace) && parent in jobs && Jobs.Terminal(jobs[parent])
    requires forall id :: id in ChildIds(jobs, parent) ==> Jobs.Terminal(jobs[id])
    ensures var later := After(jobs, trace);
      && parent in later && Jobs.Terminal(later[parent])
      && ChildIds(later, parent) == ChildIds(jobs, parent)
      && (forall id :: id in ChildIds(jobs, parent) ==> later[id] == jobs[id])
      && SummaryOf(later, ChildIds(later, parent)) == SummaryOf(jobs, ChildIds(jobs, parent))
    decreases |trace|
  {
    if trace != [] {
      var before := trace[..|trace| - 1];
      SettledForGood(jobs, before, parent);
      StoreOkAlways(jobs, before);
      EventKeepsChildren(After(jobs, before), trace[|trace| - 1], parent);
      SameRowsSameSummary(jobs, After(jobs, trace), ChildIds(jobs, parent));
    }
  }

  lemma SameRowsSameSummary(jobs: Table, later: Table, ids: set<JobId>)
    requires forall id :: id in ids ==> id in jobs && id in later && later[id] == jobs[id]
    ensures SummaryOf(later, ids) == SummaryOf(jobs, ids)
  {
    forall state ensures InState(later, ids, state) == InState(jobs, ids, state) {}
  }

  lemma NotDone(jobs: Table, parent: JobId, id: JobId)
    requires id in ChildIds(jobs, parent) && jobs[id].state == Queued
    ensures !SummaryOf(jobs, ChildIds(jobs, parent)).Terminal()
  {
    CountsPartition(jobs, ChildIds(jobs, parent));
    NoneOf(jobs, ChildIds(jobs, parent), Queued);
  }

  /** The parent's own end is what settles it: a successful verdict about a job still under way lasts exactly
      until it is given another child. */
  lemma SuccessLostIff(jobs: Table, parent: JobId, id: JobId, request: Request, now: Time)
    requires StoreOk(jobs) && SummaryOf(jobs, ChildIds(jobs, parent)).Successful()
    requires parent in jobs && request.parent == Some(parent)
    ensures var next := Apply(jobs, Event(Call.Enqueue(id, request), now));
      !SummaryOf(next, ChildIds(next, parent)).Successful()
      <==> !Jobs.Terminal(jobs[parent]) && request.maxAttempts >= 1 && id !in jobs
  {
    var e := Event(Call.Enqueue(id, request), now);
    var next := Apply(jobs, e);
    assert forall k :: k in jobs ==> RowAfter(jobs[k], k, e) == jobs[k];
    if EnqueueError(jobs, id, request).None? {
      NotDone(next, parent, id);
    } else {
      assert next == jobs;
    }
  }
}
