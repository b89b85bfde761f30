/** The backup scheduler (teldrive_lab/backups.py, `BackupScheduler` and the schedule rows of `BackupStore`). */
module Scheduler {
  import opened Base
  import opened Jobs

  datatype Schedule = Schedule(sources: string, destination: string, interval: real, nextRunAt: real, enabled: bool)

  type Schedules = map<string, Schedule>

  predicate Due(s: Schedule, now: real) { s.enabled && s.nextRunAt <= now }

  /** `advance_schedule`. */
  function Advanced(s: Schedule, now: real): Schedule {
    s.(nextRunAt := Max(s.nextRunAt + s.interval, now + s.interval))
  }

  function Fired(s: Schedule, now: real): Schedule {
    if Due(s, now) then Advanced(s, now) else s
  }

  function BackupRequest(s: Schedule): Request {
    Request(Backup, "NORMAL", 3, Some(s.sources), Some(s.destination), None, None, None)
  }

  function DueIds(schedules: Schedules, now: real): set<string> {
    set id | id in schedules && Due(schedules[id], now)
  }

  /** uuid4 hands out ids that are new and differ from one another. */
  ghost predicate FreshIds(uuid: string -> JobId, schedules: Schedules, jobs: Table) {
    && (forall id :: id in schedules ==> uuid(id) !in jobs)
    && (forall a, b :: a in schedules && b in schedules && a != b ==> uuid(a) != uuid(b))
  }

  class BackupScheduler {
    var schedules: Schedules
    const jobs: JobStore

    constructor (jobs: JobStore)
      ensures this.jobs == jobs && schedules == map[]
    {
      this.jobs, schedules := jobs, map[];
    }

    method Add(id: string, sources: string, destination: string, interval: real, first: real)
      returns (r: Result<Schedule, Error>)
      modifies this
      ensures r.Ok? <==> interval > 0.0
      ensures r == if interval > 0.0 then Ok(Schedule(sources, destination, interval, first, true)) else Err(ValueError)
      ensures schedules == if r.Ok? then old(schedules)[id := Schedule(sources, destination, interval, first, true)]
              else old(schedules)
    {
      if interval <= 0.0 {
        return Err(ValueError);
      }
      var s := Schedule(sources, destination, interval, first, true);
      schedules := schedules[id := s];
      r := Ok(s);
    }

    /** One job per due schedule, each of which moves on. */
    method RunDue(now: real, uuid: string -> JobId, clock: Time) returns (created: seq<JobId>)
      requires FreshIds(uuid, schedules, jobs.jobs)
      modifies this, jobs
      ensures schedules == Moved(DueIds(old(schedules), now), old(schedules), now)
      ensures JobsAdded(DueIds(old(schedules), now), old(schedules), old(jobs.jobs), jobs.jobs, uuid, clock)
      ensures Lists(DueIds(old(schedules), now), created, uuid)
      ensures schedules.Keys == old(schedules).Keys
      ensures forall id :: id in old(schedules) ==>
                FiredAlone(old(schedules)[id], schedules[id], now, uuid(id), created, jobs.jobs)
    {
      var due := set id | id in schedules && schedules[id].enabled && schedules[id].nextRunAt <= now;
      ghost var schedules0, jobs0, done := schedules, jobs.jobs, {};
      created := [];
      assert schedules == Moved({}, schedules, now);
      var left := due;
      while left != {}
        invariant forall x :: x in due <==> x in done || x in left
        invariant forall x :: x in done ==> x !in left
        invariant due <= schedules0.Keys
        invariant schedules == Moved(done, schedules0, now)
        invariant JobsAdded(done, schedules0, jobs0, jobs.jobs, uuid, clock)
        invariant Lists(done, created, uuid)
        decreases |left|
      {
        var id :| id in left;
        MovedNext(done, schedules0, now, id);
        JobsAddedNext(done, schedules0, jobs0, jobs.jobs, uuid, clock, id);
        ListsNext(done, created, uuid, id);
        created := FireOne(created, id, now, uuid(id), clock);
        done := done + {id};
        left := left - {id};
      }
      assert done == due == DueIds(schedules0, now);
      AllFired(schedules0, now, jobs0, jobs.jobs, created, uuid, clock);
    }

    /** The body of the loop: enqueue, remember the job, advance the schedule. */
    method FireOne(before: seq<JobId>, id: string, now: real, newId: JobId, clock: Time) returns (created: seq<JobId>)
      requires id in schedules && newId !in jobs.jobs
      modifies this, jobs
      ensures created == before + [newId]
      ensures schedules == old(schedules)[id := Advanced(old(schedules)[id], now)]
      ensures jobs.jobs == old(jobs.jobs)[newId := Fresh(BackupRequest(old(schedules)[id]), clock)]
    {
      var s := schedules[id];
      var job := jobs.Enqueue(Request(Backup, "NORMAL", 3, Some(s.sources), Some(s.destination), None, None, None),
                              None, newId, clock);
      created := before + [job.value.id];
      var a, b := s.nextRunAt + s.interval, now + s.interval;
      schedules := schedules[id := s.(nextRunAt := if a < b then b else a)];
    }
  }

  /** Exactly the schedules in `done` have moved on. */
  function Moved(done: set<string>, schedules: Schedules, now: real): Schedules {
    map id | id in schedules :: if id in done then Advanced(schedules[id], now) else schedules[id]
  }

  /** Each schedule in `done` has exactly one new job, which carries its sources and destination; no other job
      is new or altered. */
  ghost predicate JobsAdded(done: set<string>, schedules: Schedules, before: Table, after: Table, uuid: string -> JobId,
                            clock: Time)
  {
    && done <= schedules.Keys
    && (forall id :: id in done ==> uuid(id) in after && after[uuid(id)] == Fresh(BackupRequest(schedules[id]), clock))
    && (forall j :: j in before ==> j in after && after[j] == before[j])
    && (forall j :: j in after && j !in before ==> exists id :: id in done && uuid(id) == j)
  }

  /** `created` lists one job id per schedule in `done`. */
  ghost predicate Lists(done: set<string>, created: seq<JobId>, uuid: string -> JobId) {
    |created| == |done| && forall id :: id in done ==> uuid(id) in created
  }

  lemma MovedNext(done: set<string>, schedules: Schedules, now: real, id: string)
    requires id in schedules && id !in done
    ensures Moved(done, schedules, now)[id] == schedules[id]
    ensures Moved(done, schedules, now)[id := Advanced(schedules[id], now)] == Moved(done + {id}, schedules, now)
  {}

  lemma ListsNext(done: set<string>, created: seq<JobId>, uuid: string -> JobId, id: string)
    requires Lists(done, created, uuid) && id !in done
    ensures Lists(done + {id}, created + [uuid(id)], uuid)
  {}

  lemma JobsAddedNext(done: set<string>, schedules: Schedules, before: Table, after: Table, uuid: string -> JobId,
                      clock: Time, id: string)
    requires FreshIds(uuid, schedules, before) && id in schedules && id !in done
    requires JobsAdded(done, schedules, before, after, uuid, clock)
    ensures uuid(id) !in after
    ensures JobsAdded(done + {id}, schedules, before, after[uuid(id) := Fresh(BackupRequest(schedules[id]), clock)],
                      uuid, clock)
  {
    forall other | other in done ensures uuid(other) != uuid(id) {
      assert other in schedules && other != id;
    }
    forall j | j in after && j !in before ensures exists x :: x in done + {id} && uuid(x) == j {
      var x :| x in done && uuid(x) == j;
      assert x in done + {id};
    }
    assert id in done + {id};
  }

  /** What became of one schedule, in plain words. */
  ghost predicate FiredAlone(s: Schedule, next: Schedule, now: real, job: JobId, created: seq<JobId>, after: Table) {
    if s.enabled && s.nextRunAt <= now
    then && next == s.(nextRunAt := now + s.interval)
         && job in created && job in after && after[job].state == Queued
         && var q := after[job].request;
            && q.kind == Backup && q.priority == "NORMAL" && q.maxAttempts == 3
            && q.source == Some(s.sources) && q.destination == Some(s.destination)
    else next == s
  }

  lemma OneFired(s: Schedule, now: real, job: JobId, created: seq<JobId>, after: Table, clock: Time)
    requires Due(s, now) ==> job in created && job in after && after[job] == Fresh(BackupRequest(s), clock)
    ensures FiredAlone(s, if Due(s, now) then Advanced(s, now) else s, now, job, created, after)
  {}

  lemma AllFired(schedules: Schedules, now: real, before: Table, after: Table, created: seq<JobId>,
                 uuid: string -> JobId, clock: Time)
    requires JobsAdded(DueIds(schedules, now), schedules, before, after, uuid, clock)
    requires Lists(DueIds(schedules, now), created, uuid)
    ensures forall id :: id in schedules ==>
      FiredAlone(schedules[id], Moved(DueIds(schedules, now), schedules, now)[id], now, uuid(id), created, after)
  {
    forall id | id in schedules ensures
      FiredAlone(schedules[id], Moved(DueIds(schedules, now), schedules, now)[id], now, uuid(id), created, after)
    {
      assert Due(schedules[id], now) <==> id in DueIds(schedules, now);
      OneFired(schedules[id], now, uuid(id), created, after, clock);
    }
  }

  /** A run fires every due schedule and no other. */
  lemma MovedIsFired(schedules: Schedules, now: real)
    ensures Moved(DueIds(schedules, now), schedules, now) == map id | id in schedules :: Fired(schedules[id], now)
    ensures (forall id :: id in schedules ==> schedules[id].interval > 0.0) ==>
              DueIds(Moved(DueIds(schedules, now), schedules, now), now) == {}
  {}

  // ---------- spacing over runs ----------

  /** The schedule after a sequence of `run_due` calls, whatever order their clocks are in. */
  function Later(s: Schedule, calls: seq<real>): Schedule {
    if calls == [] then s else Fired(Later(s, calls[..|calls| - 1]), calls[|calls| - 1])
  }

  /** The calls at which the schedule fired. */
  function Firings(s: Schedule, calls: seq<real>): seq<real> {
    if calls == [] then []
    else
      var init, now := calls[..|calls| - 1], calls[|calls| - 1];
      Firings(s, init) + (if Due(Later(s, init), now) then [now] else [])
  }

  /** A schedule that fires next runs exactly one interval after this call: missed runs are not made up for.
      It is no longer due at this instant exactly when its interval is positive. */
  lemma FiresOnceThenWaits(s: Schedule, now: real)
    requires Due(s, now)
    ensures Fired(s, now).nextRunAt == now + s.interval
    ensures !Due(Fired(s, now), now) <==> s.interval > 0.0
  {}

  function Times(n: nat, x: real): real {
    if n == 0 then 0.0 else x + Times(n - 1, x)
  }

  /** Firings are at least an interval apart, so `n` of them span at least `n - 1` intervals. */
  lemma {:induction false} FiringsSpaced(s: Schedule, calls: seq<real>)
    requires s.interval >= 0.0
    ensures var f := Firings(s, calls);
      && Later(s, calls) == s.(nextRunAt := Later(s, calls).nextRunAt)
      && (forall k :: 0 <= k < |f| - 1 ==> f[k + 1] >= f[k] + s.interval)
      && (f != [] ==> f[|f| - 1] - f[0] >= Times(|f| - 1, s.interval)
                      && Later(s, calls).nextRunAt >= f[|f| - 1] + s.interval)
      && (f == [] ==> Later(s, calls) == s)
  {
    if calls != [] {
      FiringsSpaced(s, calls[..|calls| - 1]);
    }
  }

  /** The same of any two calls at which the schedule is due. */
  lemma {:induction false} DueCallsSpaced(s: Schedule, calls: seq<real>, i: nat, j: nat)
    requires s.enabled && s.interval >= 0.0 && i < j < |calls|
    requires Later(s, calls[..i]).nextRunAt <= calls[i] && Later(s, calls[..j]).nextRunAt <= calls[j]
    ensures calls[j] >= calls[i] + s.interval
    ensures calls[i] in Firings(s, calls[..j])
  {
    DueHolds(s, calls, i, j);
    WaitsAfter(s, calls, i, j);
  }

  lemma {:induction false} LaterKeeps(s: Schedule, calls: seq<real>)
    ensures Later(s, calls).enabled == s.enabled && Later(s, calls).interval == s.interval
  {
    if calls != [] {
      LaterKeeps(s, calls[..|calls| - 1]);
    }
  }

  lemma Unfolds(s: Schedule, calls: seq<real>, j: nat)
    requires 0 < j <= |calls|
    ensures Later(s, calls[..j]) == Fired(Later(s, calls[..j - 1]), calls[j - 1])
    ensures Firings(s, calls[..j]) == Firings(s, calls[..j - 1])
                                      + (if Due(Later(s, calls[..j - 1]), calls[j - 1]) then [calls[j - 1]] else [])
  {
    var shorter := calls[..j];
    assert shorter[..|shorter| - 1] == calls[..j - 1];
  }

  lemma {:induction false} DueHolds(s: Schedule, calls: seq<real>, i: nat, j: nat)
    requires s.enabled && s.interval >= 0.0 && i < j <= |calls| && Later(s, calls[..i]).nextRunAt <= calls[i]
    ensures calls[i] in Firings(s, calls[..j])
    decreases j
  {
    Unfolds(s, calls, j);
    LaterKeeps(s, calls[..i]);
    if j > i + 1 {
      DueHolds(s, calls, i, j - 1);
    }
  }

  lemma {:induction false} WaitsAfter(s: Schedule, calls: seq<real>, i: nat, j: nat)
    requires s.enabled && s.interval >= 0.0 && i < j <= |calls| && Later(s, calls[..i]).nextRunAt <= calls[i]
    ensures Later(s, calls[..j]).nextRunAt >= calls[i] + s.interval
    decreases j
  {
    Unfolds(s, calls, j);
    LaterKeeps(s, calls[..j - 1]);
    if j > i + 1 {
      WaitsAfter(s, calls, i, j - 1);
    }
  }

  lemma {:induction false} TimesIsProduct(n: nat, x: real)
    ensures Times(n, x) == n as real * x
  {
    if n > 0 {
      TimesIsProduct(n - 1, x);
      assert n as real * x == (n - 1) as real * x + x;
    }
  }

  /** `n` firings of one schedule span at least `n - 1` intervals, whatever order the clocks are in. */
  lemma FiringsSpan(s: Schedule, calls: seq<real>)
    requires s.interval >= 0.0 && Firings(s, calls) != []
    ensures var f := Firings(s, calls); (|f| - 1) as real * s.interval <= f[|f| - 1] - f[0]
  {
    FiringsSpaced(s, calls);
    TimesIsProduct(|Firings(s, calls)| - 1, s.interval);
  }
}
