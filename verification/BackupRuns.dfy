/** The backup round trip (teldrive_lab/backups.py): plan, apply and verify with a fault possible at every I/O
    call, and a later restore on a file system where nothing fails any more. */
module BackupRuns {
  import opened Base
  import opened Files
  import opened Retention
  import opened Backups
  import BackupRecords
  import Safety

  function RawName(r: Raw): string { Name(r.path) }

  /** Every source passes the planner's checks, no two have one name, and the root and the manifest can be made. */
  ghost predicate Plannable(boundary: seq<Safety.Path>, sources: seq<Raw>, root: Path, stamp: string,
                            files: map<Path, Bytes>, dirs: set<Path>)
  {
    && Distinct(sources, RawName)
    && (forall r :: r in sources ==> Check(boundary, r.path, root, files, dirs).None?)
    && CanBeDirectory(files, root) && root + [MANIFESTS] !in files && root + [MANIFESTS, stamp] !in dirs
  }

  /** And none takes the place of the manifest directory. */
  ghost predicate Unhindered(boundary: seq<Safety.Path>, sources: seq<Raw>, root: Path, stamp: string,
                             files: map<Path, Bytes>, dirs: set<Path>)
  {
    Plannable(boundary, sources, root, stamp, files, dirs) && forall r :: r in sources ==> RawName(r) != MANIFESTS
  }

  lemma PlannableIsPrepared(sha: Bytes -> Digest, boundary: seq<Safety.Path>, sources: seq<Raw>, root: Path,
                            policy: Policy, now: real, stamp: string, plan: Plan, files: map<Path, Bytes>,
                            dirs: set<Path>)
    requires Plannable(boundary, sources, root, stamp, files, dirs)
    requires PlanOf(plan, sources, root, policy, now, stamp) && AllCurrent(sha, files, dirs, boundary, plan)
    ensures Prepared(sha, plan, root, stamp, boundary, files, dirs)
  {
    var ordered := Sort(sources, RawText);
    SortMembers(sources, RawText);
    SortKeepsDistinct(sources, RawText, RawName);
    forall i, j | 0 <= i < j < |plan.items| ensures plan.items[i].destination != plan.items[j].destination {
      assert RawName(ordered[i]) != RawName(ordered[j]);
      assert plan.items[i].destination[|root|] != plan.items[j].destination[|root|];
    }
  }

  lemma NoneIsManifests(sources: seq<Raw>, root: Path, policy: Policy, now: real, stamp: string, plan: Plan)
    requires PlanOf(plan, sources, root, policy, now, stamp) && forall r :: r in sources ==> RawName(r) != MANIFESTS
    ensures forall k :: 0 <= k < |plan.items| ==> Name(plan.items[k].source) != MANIFESTS
  {
    var ordered := Sort(sources, RawText);
    SortMembers(sources, RawText);
    forall k | 0 <= k < |plan.items| ensures Name(plan.items[k].source) != MANIFESTS {
      assert ordered[k] in ordered;
      assert RawName(ordered[k]) != MANIFESTS;
    }
  }

  lemma PlannableIsPlanned(boundary: seq<Safety.Path>, sources: seq<Raw>, root: Path, stamp: string, k: nat,
                           files: map<Path, Bytes>, dirs: set<Path>, error: Error, faulted: bool)
    requires Plannable(boundary, sources, root, stamp, files, dirs) && k < |sources|
    requires Stops(boundary, sources, k, root, files, dirs, error, faulted)
    ensures faulted
  {
    SortMembers(sources, RawText);
    assert Sort(sources, RawText)[k] in Sort(sources, RawText);
  }

  /** The item is backed up: its copy has the recorded digest and, unless it collides with the source as it was
      planned, the recorded size. */
  ghost predicate Secured(sha: Bytes -> Digest, item: Item, before: map<Path, Bytes>, files: map<Path, Bytes>) {
    && item.source in before && item.destination !in before && item.destination in files
    && sha(files[item.destination]) == item.sha
    && (StateOf(sha, files, item) == Verified || Collide(sha, before[item.source], files[item.destination]))
  }

  /** Plan, and apply the plan at once.  Without faults and with plannable sources, all copies are made, and the
      backup is on record exactly when no source takes the name of the manifest directory. */
  method PlanAndApply(planner: BackupPlanner, executor: BackupExecutor, sources: seq<Raw>, root: Path, policy: Policy,
                      now: real, stamp: string, id: string)
    returns (plan: Result<Plan, Error>, a: Answer)
    requires planner.fs == executor.fs && planner.boundary == executor.boundary && executor.fs.Valid()
    modifies executor.fs, executor.store
    ensures executor.fs.Valid() && old(executor.fs.tick) <= executor.fs.tick
    ensures Kept(root + [MANIFESTS, stamp], old(executor.fs.files), executor.fs.files)
    ensures forall p :: p in executor.fs.files && p !in old(executor.fs.files) ==> plan.Ok? && p in Places(plan.value)
    ensures plan.Ok? ==> PlanOf(plan.value, sources, root, policy, now, stamp)
    ensures if a == Answer(true)
            then plan.Ok? && executor.store.State() == BackupRecords.PutInto(old(executor.store.State()),
                                                         executor.store.digest(Rows(plan.value)), Rows(plan.value))
            else executor.store.State() == old(executor.store.State())
    ensures old(executor.store.Valid()) ==> executor.store.Valid()
    ensures a == Answer(true) ==> AllSecured(executor.fs.sha, plan.value, old(executor.fs.files), executor.fs.files)
    ensures old(executor.fs.Sound())
            && Plannable(executor.boundary, sources, root, stamp, old(executor.fs.files), old(executor.fs.dirs)) ==>
      plan.Ok?
      && Completed(executor.fs.sha, plan.value, root, a, executor.fs.files, old(executor.fs.dirs), executor.fs.dirs)
  {
    ghost var sha, files, dirs := executor.fs.sha, executor.fs.files, executor.fs.dirs;
    ghost var free := Plannable(executor.boundary, sources, root, stamp, files, dirs);
    plan := planner.MakePlan(sources, root, policy, now, stamp);
    if plan.Err? {
      if free {
        ghost var faulted := Faulted(executor.fs.fault, old(executor.fs.tick), executor.fs.tick);
        var k :| 0 <= k < |sources| && Stops(executor.boundary, sources, k, root, files, dirs, plan.error, faulted);
        PlannableIsPlanned(executor.boundary, sources, root, stamp, k, files, dirs, plan.error, faulted);
      }
      return plan, Threw(plan.error);
    }
    if free {
      PlannableIsPrepared(sha, executor.boundary, sources, root, policy, now, stamp, plan.value, files, dirs);
    }
    var changed;
    a, changed := executor.Apply(plan.value, id, root, stamp);
    if a == Answer(true) {
      PlannedAreSecured(sha, executor.boundary, plan.value, files, dirs, executor.fs.files);
    }
  }

  /** Existing files other than the manifest are kept. */
  ghost predicate Kept(manifest: Path, before: map<Path, Bytes>, files: map<Path, Bytes>) {
    forall p :: p in before && p != manifest ==> p in files && files[p] == before[p]
  }

  ghost predicate AllSecured(sha: Bytes -> Digest, plan: Plan, before: map<Path, Bytes>, files: map<Path, Bytes>) {
    && DistinctDestinations(plan)
    && forall k :: 0 <= k < |plan.items| ==> Secured(sha, plan.items[k], before, files)
  }

  /** Existing files other than the manifest are kept.  Once `apply` has returned true the plan is on record,
      every item is secured, and a verification that gets to its end says so.  Without faults and unhindered, all
      of this happens and every item is VERIFIED. */
  method BackUp(planner: BackupPlanner, executor: BackupExecutor, sources: seq<Raw>, root: Path, policy: Policy,
                now: real, stamp: string, id: string)
    returns (plan: Result<Plan, Error>, applied: bool, states: Result<seq<State>, Error>)
    requires planner.fs == executor.fs && planner.boundary == executor.boundary && executor.fs.Valid()
    modifies executor.fs, executor.store
    ensures executor.fs.Valid() && old(executor.fs.tick) <= executor.fs.tick
    ensures Kept(root + [MANIFESTS, stamp], old(executor.fs.files), executor.fs.files)
    ensures forall p :: p in executor.fs.files && p !in old(executor.fs.files) ==> plan.Ok? && p in Places(plan.value)
    ensures plan.Ok? ==> PlanOf(plan.value, sources, root, policy, now, stamp)
    ensures if applied
            then plan.Ok? && executor.store.State() == BackupRecords.PutInto(old(executor.store.State()),
                                                         executor.store.digest(Rows(plan.value)), Rows(plan.value))
            else executor.store.State() == old(executor.store.State())
    ensures old(executor.store.Valid()) ==> executor.store.Valid()
    ensures applied ==> AllSecured(executor.fs.sha, plan.value, old(executor.fs.files), executor.fs.files)
    ensures applied && states.Ok? ==>
      && |states.value| == |plan.value.items|
      && forall k :: 0 <= k < |states.value| ==>
           states.value[k] == StateOf(executor.fs.sha, executor.fs.files, plan.value.items[k])
    ensures old(executor.fs.Sound())
            && Unhindered(executor.boundary, sources, root, stamp, old(executor.fs.files), old(executor.fs.dirs)) ==>
      && applied && Intact(executor.fs.sha, plan.value, executor.fs.files)
      && states.Ok? && (forall k :: 0 <= k < |states.value| ==> states.value[k] == Verified)
      && forall d :: d in executor.fs.dirs ==> d in old(executor.fs.dirs) || d <= root + [MANIFESTS]
  {
    ghost var files, dirs := executor.fs.files, executor.fs.dirs;
    ghost var smooth :=
      executor.fs.Sound() && Unhindered(executor.boundary, sources, root, stamp, files, dirs);
    applied, states := false, Err(OtherError);
    var a;
    plan, a := PlanAndApply(planner, executor, sources, root, policy, now, stamp, id);
    if smooth {
      NoneIsManifests(sources, root, policy, now, stamp, plan.value);
    }
    if a == Answer(true) {
      applied := true;
      states := executor.Verify(plan.value);
    }
  }

  lemma PlannedAreSecured(sha: Bytes -> Digest, boundary: seq<Safety.Path>, plan: Plan, before: map<Path, Bytes>,
                          dirs: set<Path>, files: map<Path, Bytes>)
    requires AllCurrent(sha, before, dirs, boundary, plan) && Copied(sha, plan, |plan.items|, files)
    ensures AllSecured(sha, plan, before, files)
  {
    forall k | 0 <= k < |plan.items|
      ensures var source := plan.items[k].source;
              source in before && |before[source]| == plan.items[k].size && sha(before[source]) == plan.items[k].sha
    {
      assert Current(sha, before, dirs, boundary, plan.items[k]);
    }
    AppliedIsIntact(sha, plan, before, files, files);
    forall k | 0 <= k < |plan.items| ensures Secured(sha, plan.items[k], before, files) {
      assert Current(sha, before, dirs, boundary, plan.items[k]);
    }
  }

  /** As long as the backup files are unaltered, a restore without faults into an unprotected root that holds
      none of the names brings back every file with its recorded size and digest, and alters no other. */
  method BringBack(executor: BackupExecutor, plan: Plan, root: Path, stamp: string, restoreRoot: Path, id: string)
    returns (restored: bool)
    requires executor.fs.Valid() && executor.fs.Sound()
    requires LaidOut(plan, root, stamp) && DistinctDestinations(plan)
    requires Intact(executor.fs.sha, plan, executor.fs.files)
    requires CanBeDirectory(executor.fs.files, restoreRoot)
    requires forall k :: 0 <= k < |plan.items| ==> Welcome(executor, plan.items[k], restoreRoot)
    modifies executor.fs
    ensures executor.fs.Valid() && restored
    ensures forall k :: 0 <= k < |plan.items| ==>
              var back := restoreRoot + [Name(plan.items[k].source)];
              StateOf(executor.fs.sha, executor.fs.files, plan.items[k].(destination := back)) == Verified
    ensures forall p :: p in old(executor.fs.files) ==>
              p in executor.fs.files && executor.fs.files[p] == old(executor.fs.files)[p]
  {
    AppliedIsRestorable(plan, root, stamp, restoreRoot, executor.boundary, executor.fs.files, executor.fs.dirs);
    var a, places := executor.Restore(plan, restoreRoot, id);
    restored := a == Answer(true);
  }

  ghost predicate Welcome(executor: BackupExecutor, item: Item, restoreRoot: Path)
    reads executor.fs
  {
    var back := restoreRoot + [Name(item.source)];
    && back !in executor.fs.files && back !in executor.fs.dirs
    && Safety.Untouched(executor.boundary, [item.destination, back])
  }

  // ---------- runs without faults ----------

  /** A planner and an executor on a file system where nothing fails, nothing is protected and nothing on record. */
  method SetUp(files: map<Path, Bytes>, dirs: set<Path>, sha: Bytes -> Digest,
               digest: BackupRecords.BackupPlan -> Digest)
    returns (planner: BackupPlanner, executor: BackupExecutor)
    requires [] in dirs && forall p :: p in files ==> p !in dirs
    ensures fresh(executor) && fresh(executor.fs) && fresh(executor.store) && planner.fs == executor.fs
    ensures planner.boundary == executor.boundary == []
    ensures executor.fs.Valid() && executor.fs.Sound() && executor.fs.files == files && executor.fs.dirs == dirs
    ensures executor.fs.sha == sha && executor.store.Valid() && executor.store.digest == digest
    ensures executor.store.State() == BackupRecords.Tables(map[], map[])
  {
    var fs := new FileSystem(files, dirs, n => false, (n, b) => b, sha, n => "");
    var store := new BackupRecords.BackupStore(digest);
    planner := new BackupPlanner(fs, []);
    executor := new BackupExecutor(fs, [], store);
  }

  // ---------- a source named like the manifest directory ----------

  const NAMESAKE: Raw := Raw("/a/manifests", ["a", MANIFESTS])

  lemma NamesakePlannable(x: Bytes)
    ensures Plannable([], [NAMESAKE], ["k"], "m", map[NAMESAKE.path := x], {[], ["a"]})
    ensures Sort([NAMESAKE], RawText) == [NAMESAKE]
  {
    assert [NAMESAKE][1..] == [];
    assert NAMESAKE.path[0] != ["k"][0] && RawName(NAMESAKE) == MANIFESTS;
  }

  /** Where the copy stands, planning the same backup again is refused. */
  method PlanAgain(planner: BackupPlanner) returns (again: Result<Plan, Error>)
    requires planner.fs.Valid() && planner.boundary == []
    requires NAMESAKE.path in planner.fs.files && ["k", MANIFESTS] in planner.fs.files
    modifies planner.fs`tick
    ensures again == Err(FileExistsError)
  {
    assert Sort([NAMESAKE], RawText) == [NAMESAKE] by { assert [NAMESAKE][1..] == []; }
    ghost var files, dirs := planner.fs.files, planner.fs.dirs;
    assert Name(NAMESAKE.path) == MANIFESTS && ["k"] + [MANIFESTS] == ["k", MANIFESTS];
    assert Check([], NAMESAKE.path, ["k"], files, dirs) == Some(FileExistsError);
    again := planner.MakePlan([NAMESAKE], ["k"], Policy(0.0, 0.0), 0.0, "m");
  }

  /** A backup of `/a/manifests` alone, without any fault: the copy is made, `apply` raises because it cannot make
      the manifest's directory, nothing goes on record, and a second attempt is refused for the copy the first one
      has left behind. */
  method NamesakeRun(x: Bytes, sha: Bytes -> Digest, digest: BackupRecords.BackupPlan -> Digest, id: string)
    returns (store: BackupRecords.BackupStore, answer: Answer, states: Result<seq<State>, Error>,
             again: Result<Plan, Error>)
    ensures answer == Threw(OsError) && fresh(store) && store.State() == BackupRecords.Tables(map[], map[])
    ensures states == Ok([Verified]) && again == Err(FileExistsError)
  {
    var planner, executor := SetUp(map[NAMESAKE.path := x], {[], ["a"]}, sha, digest);
    store := executor.store;
    NamesakePlannable(x);
    var plan;
    plan, answer := PlanAndApply(planner, executor, [NAMESAKE], ["k"], Policy(0.0, 0.0), 0.0, "m", id);
    var item := plan.value.items[0];
    assert item.source == NAMESAKE.path && item.destination == ["k", MANIFESTS];
    assert StateOf(sha, executor.fs.files, item) == Verified;
    states := executor.Verify(plan.value);
    assert states.value == [Verified];
    again := PlanAgain(planner);
  }

  // ---------- how a lock is lost ----------

  const FIRST: Raw := Raw("/b/x", ["b", "x"])
  const SECOND: Raw := Raw("z", ["a", "z"])

  function BothThere(x: Bytes, y: Bytes): map<Path, Bytes> { map[["b", "x"] := x, ["a", "z"] := y] }

  /** The same plan with its two items the other way round. */
  function Twin(p: BackupRecords.BackupPlan): BackupRecords.BackupPlan
    requires |p.items| == 2
  {
    p.(items := [p.items[1], p.items[0]])
  }

  lemma SourcesInOrder()
    ensures Sort([FIRST, SECOND], RawText) == [FIRST, SECOND]
    ensures !Leq(Safety.Text(["b", "x"]), Safety.Text(["a", "z"]))
    ensures Leq(Safety.Text(["a", "z"]), Safety.Text(["b", "x"])) && Safety.Text(["a", "z"]) != Safety.Text(["b", "x"])
  {
    assert [FIRST, SECOND][1..] == [SECOND] && [SECOND][1..] == [];
    assert Leq(RawText(FIRST), RawText(SECOND));
    assert Safety.Text(["b", "x"]) == "/b/x" && Safety.Text(["a", "z"]) == "/a/z";
    assert "/b/x"[0] == "/a/z"[0] && "/b/x"[1..][0] == 'b' && "/a/z"[1..][0] == 'a';
  }

  lemma BothUnhindered(x: Bytes, y: Bytes)
    ensures Unhindered([], [FIRST, SECOND], ["k"], "m", BothThere(x, y), {[], ["a"], ["b"]})
  {
    assert RawName(FIRST) == "x" && RawName(SECOND) == "z" && "x" != "z" && "x" != MANIFESTS && "z" != MANIFESTS;
    assert |["b", "x"]| == |["a", "z"]| == 2 && ["b", "x"][0] != ["k"][0] && ["a", "z"][0] != ["k"][0];
  }

  lemma TwoInserted(items: seq<BackupRecords.BackupItem>)
    requires |items| == 2
    ensures BackupRecords.Inserted(map[], items)
         == map[items[0].source := items[0]][items[1].source := items[1]]
  {
    var first := items[..1];
    assert first == [items[0]] && first[..0] == [];
    assert BackupRecords.Inserted(map[], first) == map[items[0].source := items[0]];
  }

  lemma TwinReadsBack(p: BackupRecords.BackupPlan)
    requires |p.items| == 2
    requires p.items[0].source == Safety.Text(["b", "x"]) && p.items[1].source == Safety.Text(["a", "z"])
    ensures BackupRecords.ReadsBack(map[p.items[0].source := p.items[0]][p.items[1].source := p.items[1]],
                                    Twin(p).items)
    ensures !BackupRecords.StrictlySorted(p.items)
  {
    SourcesInOrder();
    var rows := map[p.items[0].source := p.items[0]][p.items[1].source := p.items[1]];
    assert Twin(p).items[0] == rows[p.items[1].source] && Twin(p).items[1] == rows[p.items[0].source];
    assert !Leq(BackupRecords.SourceOf(p.items[0]), BackupRecords.SourceOf(p.items[1]));
  }

  /** The plan read back is the twin. */
  lemma ReadBackIsTwin(t: BackupRecords.Tables, d: Digest, p: BackupRecords.BackupPlan, q: BackupRecords.BackupPlan)
    requires d !in t.headers && d !in t.rows && |p.items| == 2
    requires p.items[0].source == Safety.Text(["b", "x"]) && p.items[1].source == Safety.Text(["a", "z"])
    requires BackupRecords.Rebuilt(BackupRecords.PutInto(t, d, p), d, q)
    ensures q == Twin(p) && !BackupRecords.StrictlySorted(p.items)
  {
    TwoInserted(p.items);
    TwinReadsBack(p);
    BackupRecords.RebuiltOnce(BackupRecords.PutInto(t, d, p), d, q, Twin(p));
  }

  /** The plan has the two items in this order and may be purged at once. */
  predicate BothPlanned(p: BackupRecords.BackupPlan) {
    && |p.items| == 2 && p.purgeAfter <= 0.0
    && p.items[0].source == Safety.Text(["b", "x"]) && p.items[1].source == Safety.Text(["a", "z"])
  }

  method BackUpBoth(x: Bytes, y: Bytes, sha: Bytes -> Digest, digest: BackupRecords.BackupPlan -> Digest, id: string)
    returns (store: BackupRecords.BackupStore, p: BackupRecords.BackupPlan)
    ensures fresh(store) && store.Valid() && store.digest == digest && BothPlanned(p)
    ensures store.State() == BackupRecords.PutInto(BackupRecords.Tables(map[], map[]), digest(p), p)
  {
    var planner, executor := SetUp(BothThere(x, y), {[], ["a"], ["b"]}, sha, digest);
    store := executor.store;
    SourcesInOrder();
    BothUnhindered(x, y);
    var plan, applied, states := BackUp(planner, executor, [FIRST, SECOND], ["k"], Policy(0.0, 0.0), 0.0, "m", id);
    p := Rows(plan.value);
  }

  /** Two sources given as `/b/x` and `z`, the latter standing for /a/z: they are planned in this order and read
      back in the other.  The backup is applied and locked, its time comes, and it is listed as ready, as its
      twin, unless the digest cannot tell the two apart. */
  method LockBypassed(x: Bytes, y: Bytes, sha: Bytes -> Digest, digest: BackupRecords.BackupPlan -> Digest, id: string)
    returns (p: BackupRecords.BackupPlan, locked: bool, ready: seq<BackupRecords.BackupPlan>)
    ensures |p.items| == 2 && p.items[0].source == "/b/x" && p.items[1].source == "/a/z" && locked
    ensures Twin(p) in ready <==> digest(Twin(p)) != digest(p)
  {
    var store;
    store, p := BackUpBoth(x, y, sha, digest, id);
    assert Safety.Text(["b", "x"]) == "/b/x" && Safety.Text(["a", "z"]) == "/a/z";
    var d := digest(p);
    var done := store.Lock(d);
    locked := BackupRecords.IsLocked(store.State(), d);
    ghost var from;
    ready, from := store.RetentionReady(0.0);
    OnlyTwinIsReady(digest, store.State(), p, from, ready);
  }

  lemma OnlyTwinIsReady(digest: BackupRecords.BackupPlan -> Digest, t: BackupRecords.Tables,
                        p: BackupRecords.BackupPlan, from: seq<Digest>, ready: seq<BackupRecords.BackupPlan>)
    requires BothPlanned(p)
    requires t == BackupRecords.LockIn(BackupRecords.PutInto(BackupRecords.Tables(map[], map[]), digest(p), p),
                                       digest(p))
    requires BackupRecords.Listing(t, digest, 0.0, from, ready)
    ensures Twin(p) in ready <==> digest(Twin(p)) != digest(p)
  {
    var d := digest(p);
    var q := BackupRecords.SomeRebuilt(t, digest, 0.0, from, ready, d);
    assert BackupRecords.Rebuilt(BackupRecords.PutInto(BackupRecords.Tables(map[], map[]), d, p), d, q);
    ReadBackIsTwin(BackupRecords.Tables(map[], map[]), d, p, q);
    BackupRecords.ListedIff(t, digest, 0.0, from, ready, q);
  }
}
