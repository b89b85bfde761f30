/** The admission limiter (teldrive_lab/concurrency.py) under the acquire/release bracket of the transfer
    manager (teldrive_lab/transfer.py), for any number of threads each running any list of transfers.
    A step is one atomic section: a semaphore operation, or one passage through the condition's lock. */
module Limiter {
  import opened Base

  datatype Limits = Limits(maxWorkers: int, maxBytes: int)

  predicate ValidLimits(l: Limits) { l.maxWorkers >= 1 && l.maxBytes >= 1 }

  /** The constructor of the limits: it accepts exactly those used below. */
  function NewLimits(maxWorkers: int, maxBytes: int): (r: Result<Limits, Error>)
    ensures r.Ok? <==> maxWorkers >= 1 && maxBytes >= 1
    ensures r.Ok? <==> ValidLimits(Limits(maxWorkers, maxBytes))
    ensures r.Ok? ==> r.value == Limits(maxWorkers, maxBytes)
    ensures r.Err? ==> r.error == ValueError
  {
    if maxWorkers < 1 then Err(ValueError)
    else if maxBytes < 1 then Err(ValueError)
    else Ok(Limits(maxWorkers, maxBytes))
  }

  /** Where a thread is.  A sleeper holds its permit; so does a thread that has given its bytes back but not
      yet its permit. */
  datatype Place =
    | Outside
    | WantsPermit(size: int)
    | Checking(size: int)
    | Asleep(size: int, notified: bool)
    | Active(size: int)
    | HalfReleased

  /** `todo` are the sizes of the transfers still to come. */
  datatype Client = Client(place: Place, todo: seq<int>)

  datatype State = State(permits: int, inflight: int, clients: seq<Client>)

  // ---------- the atomic sections, on the limiter object ----------

  predicate Refused(l: Limits, size: int) { size < 0 || size > l.maxBytes }

  predicate Fits(l: Limits, inflight: int, size: int) { inflight + size <= l.maxBytes }

  function Returned(inflight: int, size: int): int {
    if inflight - size < 0 then 0 else inflight - size
  }

  class TransferLimiter {
    const limits: Limits
    var permits: int
    var inflight: int

    constructor (limits: Limits)
      ensures this.limits == limits && permits == limits.maxWorkers && inflight == 0
    {
      this.limits, permits, inflight := limits, limits.maxWorkers, 0;
    }

    /** The argument checks of `acquire`. */
    method CheckSize(size: int) returns (r: Result<(), Error>)
      ensures r == if size < 0 || size > limits.maxBytes then Err(ValueError) else Ok(())
      ensures r.Err? <==> Refused(limits, size)
    {
      if size < 0 {
        return Err(ValueError);
      }
      if size > limits.maxBytes {
        return Err(ValueError);
      }
      r := Ok(());
    }

    /** `self._workers.acquire()`, when it does not block. */
    method TakePermit() returns (taken: bool)
      modifies this`permits
      ensures taken == (old(permits) > 0)
      ensures permits == if taken then old(permits) - 1 else old(permits)
    {
      taken := permits > 0;
      if taken {
        permits := permits - 1;
      }
    }

    /** One passage through the lock in `acquire`: admitted, or off to sleep. */
    method Admit(size: int) returns (admitted: bool)
      modifies this`inflight
      ensures admitted == Fits(limits, old(inflight), size)
      ensures admitted <==> old(inflight) + size <= limits.maxBytes
      ensures inflight == if admitted then old(inflight) + size else old(inflight)
    {
      if inflight + size > limits.maxBytes {
        return false;
      }
      inflight := inflight + size;
      admitted := true;
    }

    /** The locked part of `release`. */
    method ReturnBytes(size: int)
      modifies this`inflight
      ensures inflight == Returned(old(inflight), size)
      ensures inflight == if size <= old(inflight) then old(inflight) - size else 0
    {
      inflight := if inflight - size > 0 then inflight - size else 0;
    }

    /** `self._workers.release()` of a bounded semaphore. */
    method ReturnPermit() returns (r: Result<(), Error>)
      modifies this`permits
      ensures r.Ok? <==> old(permits) < limits.maxWorkers
      ensures permits == if r.Ok? then old(permits) + 1 else old(permits)
    {
      if permits >= limits.maxWorkers {
        return Err(ValueError);
      }
      permits := permits + 1;
      r := Ok(());
    }
  }

  // ---------- steps ----------

  predicate Enabled(s: State, i: nat) {
    i < |s.clients| &&
    match s.clients[i].place
    case Outside => s.clients[i].todo != []
    case WantsPermit(_) => s.permits > 0
    case Checking(_) => true
    case Asleep(_, notified) => notified
    case Active(_) => true
    case HalfReleased => true
  }

  function Notified(clients: seq<Client>): (r: seq<Client>)
    ensures |r| == |clients|
    ensures forall i :: 0 <= i < |r| ==>
      r[i] == if clients[i].place.Asleep? then clients[i].(place := Asleep(clients[i].place.size, true)) else clients[i]
  {
    seq(|clients|, i requires 0 <= i < |clients| =>
      if clients[i].place.Asleep? then clients[i].(place := Asleep(clients[i].place.size, true)) else clients[i])
  }

  function Moved(s: State, i: nat, place: Place): State
    requires i < |s.clients|
  {
    s.(clients := s.clients[i := s.clients[i].(place := place)])
  }

  /** The step client `i` takes.  The backend may return or raise: the bracket releases either way. */
  function Next(l: Limits, s: State, i: nat): State
    requires Enabled(s, i)
  {
    var c := s.clients[i];
    match c.place
    case Outside =>
      var place := if Refused(l, c.todo[0]) then Outside else WantsPermit(c.todo[0]);
      s.(clients := s.clients[i := Client(place, c.todo[1..])])
    case WantsPermit(size) => Moved(s, i, Checking(size)).(permits := s.permits - 1)
    case Checking(size) =>
      if Fits(l, s.inflight, size) then Moved(s, i, Active(size)).(inflight := s.inflight + size)
      else Moved(s, i, Asleep(size, false))
    case Asleep(size, _) => Moved(s, i, Checking(size))
    case Active(size) =>
      var t := Moved(s, i, HalfReleased);
      t.(inflight := Returned(s.inflight, size), clients := Notified(t.clients))
    case HalfReleased => Moved(s, i, Outside).(permits := s.permits + 1)
  }

  // ---------- sums over clients ----------

  function Total(clients: seq<Client>, weight: Client -> int): int {
    if clients == [] then 0 else weight(clients[0]) + Total(clients[1..], weight)
  }

  lemma {:induction false} TotalUpdate(clients: seq<Client>, i: nat, c: Client, weight: Client -> int)
    requires i < |clients|
    ensures Total(clients[i := c], weight) == Total(clients, weight) - weight(clients[i]) + weight(c)
  {
    if i == 0 {
      assert clients[i := c][1..] == clients[1..];
    } else {
      assert clients[i := c][1..] == clients[1..][i - 1 := c];
      TotalUpdate(clients[1..], i - 1, c, weight);
    }
  }

  lemma OneMore(n: nat, gain: nat)
    ensures (n + 1) * gain == n * gain + gain
  {}

  lemma {:induction false} TotalNotified(clients: seq<Client>, weight: Client -> int, gain: nat)
    requires forall c: Client, n :: c.place.Asleep? && n == c.(place := Asleep(c.place.size, true)) ==>
               weight(c) <= weight(n) <= weight(c) + gain
    ensures Total(clients, weight) <= Total(Notified(clients), weight) <= Total(clients, weight) + |clients| * gain
  {
    if clients != [] {
      assert Notified(clients)[1..] == Notified(clients[1..]);
      TotalNotified(clients[1..], weight, gain);
      OneMore(|clients[1..]|, gain);
    }
  }

  lemma {:induction false} TotalBounds(clients: seq<Client>, weight: Client -> int, i: nat)
    requires forall c: Client :: weight(c) >= 0
    ensures 0 <= Total(clients, weight)
    ensures i < |clients| ==> weight(clients[i]) <= Total(clients, weight)
  {
    if clients != [] {
      TotalBounds(clients[1..], weight, if i > 0 then i - 1 else 0);
    }
  }

  /** A positive sum has a positive summand. */
  lemma {:induction false} SomePositive(clients: seq<Client>, weight: Client -> int) returns (i: nat)
    requires Total(clients, weight) > 0
    ensures i < |clients| && weight(clients[i]) > 0
  {
    if weight(clients[0]) > 0 {
      i := 0;
    } else {
      var j := SomePositive(clients[1..], weight);
      i := j + 1;
    }
  }

  function BytesOf(c: Client): int {
    if c.place.Active? && c.place.size >= 0 then c.place.size else 0
  }

  function PermitsOf(c: Client): int {
    if c.place.Outside? || c.place.WantsPermit? then 0 else 1
  }

  // ---------- safety ----------

  predicate ClientOk(l: Limits, s: State, c: Client) {
    match c.place
    case Outside => true
    case HalfReleased => true
    case Asleep(size, notified) => 0 <= size <= l.maxBytes && (!notified ==> s.inflight + size > l.maxBytes)
    case _ => 0 <= c.place.size <= l.maxBytes
  }

  /** The bytes in flight are the sizes of the active transfers and stay within the limit; every permit is
      free or held; a sleeper nobody has notified really does not fit. */
  predicate Inv(l: Limits, s: State) {
    && ValidLimits(l)
    && s.inflight == Total(s.clients, BytesOf) && 0 <= s.inflight <= l.maxBytes
    && s.permits + Total(s.clients, PermitsOf) == l.maxWorkers && 0 <= s.permits
    && forall i :: 0 <= i < |s.clients| ==> ClientOk(l, s, s.clients[i])
  }

  function Initial(l: Limits, work: seq<seq<int>>): State {
    State(l.maxWorkers, 0, seq(|work|, i requires 0 <= i < |work| => Client(Outside, work[i])))
  }

  lemma {:induction false} AllOutside(clients: seq<Client>)
    requires forall i :: 0 <= i < |clients| ==> clients[i].place.Outside?
    ensures Total(clients, BytesOf) == 0 && Total(clients, PermitsOf) == 0
  {
    if clients != [] {
      AllOutside(clients[1..]);
    }
  }

  /** The clamp in `release` and the bound of the semaphore never bite. */
  lemma NeverClamped(l: Limits, s: State, i: nat)
    requires Inv(l, s) && Enabled(s, i)
    ensures s.clients[i].place.Active? ==> s.inflight - s.clients[i].place.size >= 0
    ensures s.clients[i].place.HalfReleased? ==> s.permits < l.maxWorkers
  {
    TotalBounds(s.clients, BytesOf, i);
    TotalBounds(s.clients, PermitsOf, i);
  }

  /** A release: the bytes come back and every sleeper is notified. */
  lemma ReleaseKeepsInv(l: Limits, s: State, i: nat)
    requires Inv(l, s) && Enabled(s, i) && s.clients[i].place.Active?
    ensures Inv(l, Next(l, s, i))
  {
    NeverClamped(l, s, i);
    var moved := Moved(s, i, HalfReleased).clients;
    TotalUpdate(s.clients, i, moved[i], BytesOf);
    TotalUpdate(s.clients, i, moved[i], PermitsOf);
    TotalNotified(moved, BytesOf, 0);
    TotalNotified(moved, PermitsOf, 0);
    assert Next(l, s, i).clients == Notified(moved);
  }

  lemma InvKept(l: Limits, s: State, i: nat)
    requires Inv(l, s) && Enabled(s, i)
    ensures Inv(l, Next(l, s, i))
  {
    if s.clients[i].place.Active? {
      ReleaseKeepsInv(l, s, i);
    } else {
      NeverClamped(l, s, i);
      var t := Next(l, s, i);
      TotalUpdate(s.clients, i, t.clients[i], BytesOf);
      TotalUpdate(s.clients, i, t.clients[i], PermitsOf);
      assert t.clients == s.clients[i := t.clients[i]];
    }
  }

  // ---------- progress ----------

  predicate Finished(c: Client) { c.place.Outside? && c.todo == [] }

  /** As long as some client has not finished, some client can take a step: no deadlock, no lost wakeup. */
  lemma SomeoneCanStep(l: Limits, s: State, i: nat) returns (j: nat)
    requires Inv(l, s) && i < |s.clients| && !Finished(s.clients[i])
    ensures Enabled(s, j)
  {
    j := i;
    if !Enabled(s, j) && s.clients[i].place.WantsPermit? {
      j := SomePositive(s.clients, PermitsOf);
    }
    if !Enabled(s, j) {
      assert s.clients[j].place.Asleep?;
      j := SomePositive(s.clients, BytesOf);
    }
  }

  /** Steps a list of transfers may still cost when there are `n` clients. */
  function Ahead(n: nat, todo: seq<int>): nat {
    if todo == [] then 0 else 3 * n + 8 + Ahead(n, todo[1..])
  }

  /** Work left on one client, when there are `n` of them: a release may set every sleeper back by three. */
  function Left(n: nat, c: Client): nat {
    (match c.place
     case Outside => 0
     case WantsPermit(_) => 3 * n + 6
     case Checking(_) => 3 * n + 4
     case Asleep(_, notified) => if notified then 3 * n + 5 else 3 * n + 2
     case Active(_) => 3 * n + 3
     case HalfReleased => 1)
    + Ahead(n, c.todo)
  }

  function LeftOf(n: nat): Client -> int { c => Left(n, c) }

  function Measure(s: State): int { Total(s.clients, LeftOf(|s.clients|)) }

  /** What the stepping client itself loses, before the sleepers are notified. */
  lemma OwnStep(l: Limits, s: State, i: nat, n: nat)
    requires Enabled(s, i)
    ensures var c := s.clients[i];
            if c.place.Active? then Left(n, c.(place := HalfReleased)) + 3 * n + 2 == Left(n, c)
            else Left(n, Next(l, s, i).clients[i]) < Left(n, c)
  {}

  lemma MeasureDecreases(l: Limits, s: State, i: nat)
    requires Enabled(s, i)
    ensures 0 <= Measure(Next(l, s, i)) < Measure(s)
  {
    var n, t := |s.clients|, Next(l, s, i);
    OwnStep(l, s, i, n);
    TotalBounds(t.clients, LeftOf(n), 0);
    if s.clients[i].place.Active? {
      var moved := Moved(s, i, HalfReleased).clients;
      TotalUpdate(s.clients, i, moved[i], LeftOf(n));
      TotalNotified(moved, LeftOf(n), 3);
      assert t.clients == Notified(moved);
    } else {
      TotalUpdate(s.clients, i, t.clients[i], LeftOf(n));
      assert t.clients == s.clients[i := t.clients[i]];
    }
  }

  // ---------- whole runs ----------

  /** A schedule: which client steps next. */
  predicate Runs(l: Limits, s: State, schedule: seq<nat>)
    decreases |schedule|
  {
    schedule == [] || (Enabled(s, schedule[0]) && Runs(l, Next(l, s, schedule[0]), schedule[1..]))
  }

  function End(l: Limits, s: State, schedule: seq<nat>): State
    requires Runs(l, s, schedule)
    decreases |schedule|
  {
    if schedule == [] then s else End(l, Next(l, s, schedule[0]), schedule[1..])
  }

  lemma {:induction false} RunFacts(l: Limits, s: State, schedule: seq<nat>)
    requires Inv(l, s) && Runs(l, s, schedule)
    ensures Inv(l, End(l, s, schedule))
    ensures |schedule| + Measure(End(l, s, schedule)) <= Measure(s)
    ensures Measure(End(l, s, schedule)) >= 0
    decreases |schedule|
  {
    if schedule == [] {
      TotalBounds(s.clients, LeftOf(|s.clients|), 0);
    } else {
      InvKept(l, s, schedule[0]);
      MeasureDecreases(l, s, schedule[0]);
      RunFacts(l, Next(l, s, schedule[0]), schedule[1..]);
    }
  }

  /** Every finite workload, however scheduled: the invariant holds throughout, no schedule is longer than the
      initial measure, and where no client can step any more every transfer is over, all permits are free and
      no bytes are in flight. */
  lemma WorkloadDrains(l: Limits, work: seq<seq<int>>, schedule: seq<nat>)
    requires ValidLimits(l) && Runs(l, Initial(l, work), schedule)
    ensures var end := End(l, Initial(l, work), schedule);
      && Inv(l, end)
      && |schedule| <= Measure(Initial(l, work))
      && ((forall i :: !Enabled(end, i)) ==>
            && (forall i :: 0 <= i < |end.clients| ==> Finished(end.clients[i]))
            && end.permits == l.maxWorkers && end.inflight == 0)
  {
    var start := Initial(l, work);
    AllOutside(start.clients);
    RunFacts(l, start, schedule);
    var end := End(l, start, schedule);
    if forall i :: !Enabled(end, i) {
      forall i | 0 <= i < |end.clients| ensures Finished(end.clients[i]) {
        if !Finished(end.clients[i]) {
          var j := SomeoneCanStep(l, end, i);
        }
      }
      AllOutside(end.clients);
    }
  }

  // ---------- which transfers run ----------

  /** The sizes client `i` takes from its check to its transfer, in the order of the schedule. */
  function Admissions(l: Limits, s: State, schedule: seq<nat>, i: nat): seq<int>
    requires Runs(l, s, schedule) && i < |s.clients|
    decreases |schedule|
  {
    if schedule == [] then []
    else
      var t := Next(l, s, schedule[0]);
      (if s.clients[i].place.Checking? && t.clients[i].place.Active? then [s.clients[i].place.size] else [])
      + Admissions(l, t, schedule[1..], i)
  }

  /** The sizes that `max_inflight_bytes` has room for at all. */
  function Possible(l: Limits, sizes: seq<int>): seq<int> {
    if sizes == [] then []
    else (if 0 <= sizes[0] <= l.maxBytes then [sizes[0]] else []) + Possible(l, sizes[1..])
  }

  /** The transfers a client is still to run. */
  function Coming(l: Limits, c: Client): seq<int> {
    (match c.place
     case WantsPermit(size) => [size]
     case Checking(size) => [size]
     case Asleep(size, _) => [size]
     case _ => [])
    + Possible(l, c.todo)
  }

  lemma StepAdmits(l: Limits, s: State, j: nat, i: nat)
    requires Enabled(s, j) && i < |s.clients|
    ensures var c, d := s.clients[i], Next(l, s, j).clients[i];
            Coming(l, c) == (if c.place.Checking? && d.place.Active? then [c.place.size] else []) + Coming(l, d)
  {
    var c, d := s.clients[i], Next(l, s, j).clients[i];
    if j != i {
      assert d == c || (c.place.Asleep? && d == c.(place := Asleep(c.place.size, true)));
    }
  }

  lemma {:induction false} RunAdmits(l: Limits, s: State, schedule: seq<nat>, i: nat)
    requires Runs(l, s, schedule) && i < |s.clients|
    ensures i < |End(l, s, schedule).clients|
    ensures Admissions(l, s, schedule, i) + Coming(l, End(l, s, schedule).clients[i]) == Coming(l, s.clients[i])
    decreases |schedule|
  {
    if schedule != [] {
      StepAdmits(l, s, schedule[0], i);
      RunAdmits(l, Next(l, s, schedule[0]), schedule[1..], i);
    }
  }

  /** However scheduled: when no client can step any more, each has run exactly its transfers of a size between zero
      and the limit, each once and in their order, and no other. */
  lemma WorkIsDone(l: Limits, work: seq<seq<int>>, schedule: seq<nat>, i: nat)
    requires ValidLimits(l) && Runs(l, Initial(l, work), schedule) && i < |work|
    requires forall j :: !Enabled(End(l, Initial(l, work), schedule), j)
    ensures Admissions(l, Initial(l, work), schedule, i) == Possible(l, work[i])
  {
    WorkloadDrains(l, work, schedule);
    RunAdmits(l, Initial(l, work), schedule, i);
    var start, end := Initial(l, work), End(l, Initial(l, work), schedule);
    assert Coming(l, start.clients[i]) == Possible(l, work[i]);
    assert Finished(end.clients[i]) && Coming(l, end.clients[i]) == [];
    assert Admissions(l, start, schedule, i) + [] == Admissions(l, start, schedule, i);
  }
}
