/** Any sequence of lifecycle operations, each plan applied right after it is made, with a fault possible at
    every I/O call (teldrive_lab/lifecycle.py).  `Run` performs one and shows its states; what holds of every
    such history is proved from the effect each operation has. */
module LifecycleRuns {
  import opened Base
  import opened Files
  import opened Lifecycle
  import opened Retention
  import opened Transfer
  import Safety

  datatype Op =
    | QuarantineOp(paths: seq<Path>, root: Path, policy: Policy, now: real)
    | PurgeOp(purgeNow: real)
    | RestoreOp(restoreRoot: Path, selected: Option<seq<Path>>)
    | LockOp(source: Path, locked: bool)

  /** What is on disk and on record. */
  datatype Disk = Disk(files: map<Path, Bytes>, dirs: set<Path>, records: Records)

  ghost function DiskOf(fs: FileSystem, store: LifecycleStore): Disk
    reads fs, store
  {
    Disk(fs.files, fs.dirs, store.records)
  }

  function Target(root: Path, source: Path): Path { Under(root, Name(source)) }

  function Itself(p: Path): Path { p }

  // ---------- what one operation does ----------

  /** The record of `s` was made by this operation: its target was free and now holds a verified copy of the
      source, and it may not go before max(retention, safety window) is over. */
  ghost predicate Quarantined(sha: Bytes -> Digest, op: Op, a: Disk, b: Disk, s: Path)
    requires op.QuarantineOp?
  {
    && s in op.paths && s in a.files && s in b.records
    && var r := b.records[s];
       && r.source == s && r.quarantine == Target(op.root, s) && r.quarantine !in a.files && r.quarantine in b.files
       && r.sha == sha(a.files[s]) == sha(b.files[r.quarantine]) && r.size == |a.files[s]|
       && r.purgeAfter == op.now + EffectiveRetention(op.policy) && !r.locked
  }

  /** The record was there before, and a copy that has appeared at its path is another source's. */
  ghost predicate LeftAlone(op: Op, a: Disk, b: Disk, s: Path)
    requires op.QuarantineOp?
  {
    && s in a.records && s in b.records && b.records[s] == a.records[s]
    && (b.records[s].quarantine in b.files && b.records[s].quarantine !in a.files ==>
          exists p :: p in op.paths && p != s && Target(op.root, p) == b.records[s].quarantine)
  }

  /** Every source is there, nothing stands in the way of its copy, and no other source has its target. */
  ghost predicate AllClear(boundary: seq<Safety.Path>, op: Op, a: Disk)
    requires op.QuarantineOp?
  {
    && Distinct(op.paths, Itself)
    && (forall p :: p in op.paths ==> Clear(boundary, p, Target(op.root, p), a.files, a.dirs))
    && (forall p, q :: p in op.paths && q in op.paths && p != q ==> Apart(Target(op.root, p), Target(op.root, q)))
    && (forall p, s :: p in op.paths && s in a.records && s != p ==> a.records[s].quarantine != Target(op.root, p))
  }

  ghost predicate QuarantineEffect(sha: Bytes -> Digest, boundary: seq<Safety.Path>, sound: bool, op: Op, a: Disk,
                                   b: Disk)
    requires op.QuarantineOp?
  {
    && OnlyAdds(a.files, b.files, set p | p in op.paths :: Target(op.root, p))
    && (forall s :: s in a.records ==> s in b.records)
    && (forall s :: s in b.records ==> Quarantined(sha, op, a, b, s) || LeftAlone(op, a, b, s))
    && (sound && AllClear(boundary, op, a) ==> forall p :: p in op.paths ==> Quarantined(sha, op, a, b, p))
  }

  /** `p` is the copy of an unlocked record whose time has come. */
  ghost predicate Released(records: Records, p: Path, now: real) {
    exists s :: s in records && records[s].quarantine == p && !records[s].locked && records[s].purgeAfter <= now
  }

  /** Only released copies go; without faults, and outside the protected boundary, all of them do. */
  ghost predicate PurgeEffect(boundary: seq<Safety.Path>, sound: bool, now: real, a: Disk, b: Disk) {
    && b.records == a.records && b.dirs == a.dirs
    && (forall p :: p in b.files ==> p in a.files && b.files[p] == a.files[p])
    && (forall p :: p in a.files && p !in b.files ==> Released(a.records, p, now))
    && (sound && (forall s :: s in a.records ==> Safety.Untouched(boundary, [a.records[s].quarantine])) ==>
          forall p :: p in b.files ==> !Released(a.records, p, now))
  }

  ghost predicate Chosen(op: Op, a: Disk, s: Path)
    requires op.RestoreOp?
  {
    s in a.records && Selects(op.selected, a.records[s].quarantine)
  }

  /** Every chosen copy is there with its recorded digest and nothing stands in its way. */
  ghost predicate AllRecoverable(sha: Bytes -> Digest, boundary: seq<Safety.Path>, op: Op, a: Disk)
    requires op.RestoreOp?
  {
    && (forall s :: Chosen(op, a, s) ==>
          && Clear(boundary, a.records[s].quarantine, Target(op.restoreRoot, s), a.files, a.dirs)
          && sha(a.files[a.records[s].quarantine]) == a.records[s].sha)
    && (forall s, t :: Chosen(op, a, s) && Chosen(op, a, t) && s != t ==>
          Apart(Target(op.restoreRoot, s), Target(op.restoreRoot, t)))
  }

  ghost predicate RestoreEffect(sha: Bytes -> Digest, boundary: seq<Safety.Path>, sound: bool, op: Op, a: Disk, b: Disk)
    requires op.RestoreOp?
  {
    && b.records == a.records
    && (forall p :: p in a.files ==> p in b.files && b.files[p] == a.files[p])
    && (forall p :: p in b.files && p !in a.files ==> exists s :: Chosen(op, a, s) && Target(op.restoreRoot, s) == p)
    && (sound && AllRecoverable(sha, boundary, op, a) ==>
          forall s :: Chosen(op, a, s) ==>
            && Target(op.restoreRoot, s) in b.files
            && sha(b.files[Target(op.restoreRoot, s)]) == a.records[s].sha)
  }

  ghost predicate Step(sha: Bytes -> Digest, boundary: seq<Safety.Path>, sound: bool, op: Op, a: Disk, b: Disk) {
    && WellKept(b.records)
    && match op
       case QuarantineOp(_, _, _, _) => QuarantineEffect(sha, boundary, sound, op, a, b)
       case PurgeOp(now) => PurgeEffect(boundary, sound, now, a, b)
       case RestoreOp(_, _) => RestoreEffect(sha, boundary, sound, op, a, b)
       case LockOp(source, locked) => b == a.(records := Relocked(a.records, source, locked))
  }

  /** `disks` are the states before, between and after the operations; `sound` says that no I/O call fails. */
  ghost predicate History(sha: Bytes -> Digest, boundary: seq<Safety.Path>, sound: bool, ops: seq<Op>, disks: seq<Disk>)
  {
    && |disks| == |ops| + 1 && WellKept(disks[0].records)
    && forall k :: 0 <= k < |ops| ==> Takes(sha, boundary, sound, ops, disks, k)
  }

  ghost predicate Takes(sha: Bytes -> Digest, boundary: seq<Safety.Path>, sound: bool, ops: seq<Op>, disks: seq<Disk>,
                        k: nat)
    requires |disks| == |ops| + 1 && k < |ops|
  {
    Step(sha, boundary, sound, ops[k], disks[k], disks[k + 1])
  }

  // ---------- performing them ----------

  /** The items of the plan are those the planner makes for the paths of the operation, in their order. */
  ghost predicate PlanFor(boundary: seq<Safety.Path>, op: Op, plan: Plan, a: Disk)
    requires op.QuarantineOp?
  {
    && |plan| == |op.paths|
    && forall k :: 0 <= k < |plan| ==>
         && plan[k].source == Sort(op.paths, PathText)[k]
         && PlannedItem(boundary, a.files, a.dirs, plan[k], op.root, op.policy, op.now)
  }

  lemma SourcesAreThePaths(boundary: seq<Safety.Path>, op: Op, plan: Plan, a: Disk)
    requires op.QuarantineOp? && PlanFor(boundary, op, plan, a)
    ensures forall k :: 0 <= k < |plan| ==>
              plan[k].source in op.paths && plan[k].quarantine == Target(op.root, plan[k].source)
    ensures forall p :: p in op.paths ==> exists k :: 0 <= k < |plan| && plan[k].source == p
  {
    var ordered := Sort(op.paths, PathText);
    SortMembers(op.paths, PathText);
    forall k | 0 <= k < |plan| ensures plan[k].source in op.paths {
      assert ordered[k] in ordered;
    }
    forall p | p in op.paths ensures exists k :: 0 <= k < |plan| && plan[k].source == p {
      assert p in ordered;
      var k :| 0 <= k < |ordered| && ordered[k] == p;
      assert plan[k].source == p;
    }
  }

  /** The plan is clear when the operation is. */
  lemma PlanIsClear(boundary: seq<Safety.Path>, op: Op, plan: Plan, a: Disk)
    requires op.QuarantineOp? && PlanFor(boundary, op, plan, a) && AllClear(boundary, op, a)
    ensures ClearPlan(boundary, plan, 0, a.files, a.dirs) && Unshared(a.records, plan)
    ensures forall k :: 0 <= k < |plan| ==> plan[k].action == Action.Quarantine
  {
    SourcesAreThePaths(boundary, op, plan, a);
    SortKeepsDistinct(op.paths, PathText, Itself);
    forall i, j | 0 <= i < j < |plan| ensures Apart(plan[i].quarantine, plan[j].quarantine) {
      assert Itself(Sort(op.paths, PathText)[i]) != Itself(Sort(op.paths, PathText)[j]);
    }
  }

  /** A record left by an item of a fresh plan is one the operation made. */
  lemma MadeByPlan(sha: Bytes -> Digest, boundary: seq<Safety.Path>, op: Op, plan: Plan, a: Disk, b: Disk, s: Path)
    requires op.QuarantineOp? && PlanFor(boundary, op, plan, a) && FreshPlan(sha, a.files, plan)
    requires WellKept(b.records) && Grows(a.files, b.files) && s in b.records
    requires FromPlan(sha, plan, a.files, b.files, b.records[s])
    ensures Quarantined(sha, op, a, b, s)
  {
    var k :| 0 <= k < |plan| && LeftBy(sha, plan[k], a.files, b.files, b.records[s]);
    SourcesAreThePaths(boundary, op, plan, a);
    assert FreshItem(sha, a.files, plan[k]);
  }

  lemma QuarantineHasEffect(sha: Bytes -> Digest, boundary: seq<Safety.Path>, op: Op, plan: Plan, a: Disk, b: Disk)
    requires op.QuarantineOp? && PlanFor(boundary, op, plan, a) && FreshPlan(sha, a.files, plan)
    requires WellKept(b.records) && OnlyAdds(a.files, b.files, Targets(plan))
    requires Accounted(sha, plan, a.files, a.records, b.files, b.records)
    ensures QuarantineEffect(sha, boundary, false, op, a, b)
  {
    SourcesAreThePaths(boundary, op, plan, a);
    forall s | s in b.records ensures Quarantined(sha, op, a, b, s) || LeftAlone(op, a, b, s) {
      assert Explained(sha, plan, a.files, a.records, b.files, s, b.records[s]);
      if FromPlan(sha, plan, a.files, b.files, b.records[s]) {
        MadeByPlan(sha, boundary, op, plan, a, b, s);
      }
    }
    forall p | p in b.files && p !in a.files ensures p in set q | q in op.paths :: Target(op.root, q) {
      var k :| 0 <= k < |plan| && plan[k].action == Action.Quarantine && plan[k].quarantine == p;
      assert Target(op.root, plan[k].source) == p;
    }
  }

  lemma CarriedIsQuarantined(sha: Bytes -> Digest, boundary: seq<Safety.Path>, op: Op, plan: Plan, results: seq<Path>,
                             a: Disk, b: Disk)
    requires op.QuarantineOp? && PlanFor(boundary, op, plan, a) && FreshPlan(sha, a.files, plan)
    requires WellKept(b.records) && Grows(a.files, b.files)
    requires Carried(sha, plan, |plan|, results, a.files, b.files, b.records)
    requires forall k :: 0 <= k < |plan| ==> plan[k].action == Action.Quarantine
    ensures forall p :: p in op.paths ==> Quarantined(sha, op, a, b, p)
  {
    SourcesAreThePaths(boundary, op, plan, a);
    forall p | p in op.paths ensures Quarantined(sha, op, a, b, p) {
      var k :| 0 <= k < |plan| && plan[k].source == p;
      MadeByPlan(sha, boundary, op, plan, a, b, p);
    }
  }

  /** Make the plan and carry it out. */
  method QuarantineNow(planner: LifecyclePlanner, executor: LifecycleExecutor, op: Op, id: string, clock: real)
    requires op.QuarantineOp? && planner.fs == executor.fs && planner.store == executor.store
    requires planner.boundary == executor.boundary && planner.fs.Valid() && WellKept(planner.store.records)
    modifies planner.fs, planner.store
    ensures planner.fs.Valid() && WellKept(planner.store.records) && old(planner.fs.tick) <= planner.fs.tick
    ensures QuarantineEffect(planner.fs.sha, planner.boundary, old(planner.fs.Sound()), op,
                             old(DiskOf(planner.fs, planner.store)), DiskOf(planner.fs, planner.store))
  {
    ghost var sha, boundary, a := planner.fs.sha, planner.boundary, DiskOf(planner.fs, planner.store);
    var plan := planner.QuarantinePlan(op.paths, op.root, op.policy, op.now);
    if plan.Err? {
      return;
    }
    ghost var clear := AllClear(boundary, op, a);
    if clear {
      PlanIsClear(boundary, op, plan.value, a);
    }
    var answer, results := executor.Quarantine(plan.value, id, clock);
    ghost var b := DiskOf(planner.fs, planner.store);
    QuarantineHasEffect(sha, boundary, op, plan.value, a, b);
    if clear && answer == Answer(true) {
      CarriedIsQuarantined(sha, boundary, op, plan.value, results, a, b);
    }
  }

  /** Different records have different copies, so a purge plan lists none twice. */
  lemma PurgePlanPurgeable(boundary: seq<Safety.Path>, plan: Plan, a: Disk, now: real)
    requires WellKept(a.records) && Distinct(plan, ItemSource)
    requires forall k :: 0 <= k < |plan| ==> PurgeItem(a.files, a.records, plan[k], now)
    requires forall s :: s in a.records ==> Safety.Untouched(boundary, [a.records[s].quarantine])
    ensures Purgeable(boundary, plan, 0, a.files)
  {
    forall i, j | 0 <= i < j < |plan| ensures plan[i].quarantine != plan[j].quarantine {
      assert ItemSource(plan[i]) != ItemSource(plan[j]);
    }
  }

  lemma ReadyIsReleased(plan: Plan, a: Disk, now: real, p: Path)
    requires forall k :: 0 <= k < |plan| ==> PurgeItem(a.files, a.records, plan[k], now)
    requires forall s :: s in a.records ==> Mentions(plan, s)
    ensures p in a.files ==> (Ready(plan, |plan|, p) <==> Released(a.records, p, now))
  {
    if p in a.files && Released(a.records, p, now) {
      var s :| s in a.records && a.records[s].quarantine == p && !a.records[s].locked && a.records[s].purgeAfter <= now;
      var k :| 0 <= k < |plan| && plan[k].source == s;
      assert PurgeItem(a.files, a.records, plan[k], now);
    }
  }

  method PurgeNow(planner: LifecyclePlanner, executor: LifecycleExecutor, now: real, id: string)
    returns (answer: Answer)
    requires planner.fs == executor.fs && planner.store == executor.store && planner.boundary == executor.boundary
    requires planner.fs.Valid() && WellKept(planner.store.records)
    modifies planner.fs
    ensures planner.fs.Valid() && old(planner.fs.tick) <= planner.fs.tick
    ensures PurgeEffect(planner.boundary, old(planner.fs.Sound()), now,
                        old(DiskOf(planner.fs, planner.store)), DiskOf(planner.fs, planner.store))
    ensures answer == Answer(true) ==> forall p :: p in planner.fs.files ==> !Released(planner.store.records, p, now)
  {
    ghost var boundary, a := planner.boundary, DiskOf(planner.fs, planner.store);
    var plan := planner.PurgePlan(now);
    ghost var unguarded := forall s :: s in a.records ==> Safety.Untouched(boundary, [a.records[s].quarantine]);
    if unguarded {
      PurgePlanPurgeable(boundary, plan, a, now);
    }
    var removed;
    answer, removed := executor.Purge(plan, id);
    forall p ensures p in a.files ==> (Ready(plan, |plan|, p) <==> Released(a.records, p, now)) {
      ReadyIsReleased(plan, a, now, p);
    }
  }

  /** A purge that answers true and then a reconciliation: a record is reported missing exactly when its copy was gone
      before, or it was unlocked and its time had come. */
  method PurgeAndReconcile(planner: LifecyclePlanner, executor: LifecycleExecutor, now: real, id: string)
    returns (answer: Answer, findings: Result<seq<(Path, Finding)>, Error>)
    requires planner.fs == executor.fs && planner.store == executor.store && planner.boundary == executor.boundary
    requires planner.fs.Valid() && WellKept(planner.store.records)
    modifies planner.fs
    ensures old(planner.fs.Sound()) ==> findings.Ok?
    ensures findings.Ok? ==> |findings.value| == |planner.store.records|
    ensures answer == Answer(true) && findings.Ok? ==>
      forall k :: 0 <= k < |findings.value| ==>
        && findings.value[k].0 in planner.store.records
        && var r := planner.store.records[findings.value[k].0];
           findings.value[k].1 == MissingQuarantine
           <==> r.quarantine !in old(planner.fs.files) || (!r.locked && r.purgeAfter <= now)
  {
    ghost var files, records := planner.fs.files, planner.store.records;
    answer := PurgeNow(planner, executor, now, id);
    forall s | s in records && answer == Answer(true)
      ensures records[s].quarantine !in planner.fs.files
         <==> records[s].quarantine !in files || (!records[s].locked && records[s].purgeAfter <= now)
    {
      GoneIffReleased(planner.boundary, now, files, planner.fs.files, records, s);
    }
    findings := planner.Reconcile();
  }

  lemma GoneIffReleased(boundary: seq<Safety.Path>, now: real, before: map<Path, Bytes>, files: map<Path, Bytes>,
                        records: Records, s: Path)
    requires WellKept(records) && s in records
    requires forall p :: p in files ==> p in before && !Released(records, p, now)
    requires forall p :: p in before && p !in files ==> Released(records, p, now)
    ensures records[s].quarantine !in files
       <==> records[s].quarantine !in before || (!records[s].locked && records[s].purgeAfter <= now)
  {
    var p := records[s].quarantine;
    if Released(records, p, now) {
      var t :| t in records && records[t].quarantine == p && !records[t].locked && records[t].purgeAfter <= now;
      assert t == s;
    } else {
      assert records[s].locked || records[s].purgeAfter > now;
    }
  }

  /** The plan is restorable when everything chosen is recoverable. */
  lemma RestorePlanRestorable(sha: Bytes -> Digest, boundary: seq<Safety.Path>, op: Op, plan: Plan, a: Disk)
    requires op.RestoreOp? && WellKept(a.records) && Distinct(plan, ItemSource) && AllRecoverable(sha, boundary, op, a)
    requires forall k :: 0 <= k < |plan| ==>
               && RestoreItem(boundary, a.files, a.dirs, a.records, plan[k], op.restoreRoot)
               && Selects(op.selected, plan[k].quarantine)
    ensures Restorable(sha, boundary, plan, 0, a.files, a.dirs)
    ensures forall k :: 0 <= k < |plan| ==> plan[k].action == Action.Restore
  {
    forall k | 0 <= k < |plan|
      ensures plan[k].action == Action.Restore && Recoverable(sha, boundary, plan[k], a.files, a.dirs)
    {
      assert Chosen(op, a, plan[k].source);
    }
    forall i, j | 0 <= i < j < |plan| ensures Apart(plan[i].destination.value, plan[j].destination.value) {
      assert ItemSource(plan[i]) != ItemSource(plan[j]);
      assert Chosen(op, a, plan[i].source) && Chosen(op, a, plan[j].source);
    }
  }

  lemma RestoreHasEffect(sha: Bytes -> Digest, boundary: seq<Safety.Path>, sound: bool, op: Op, plan: Plan,
                         restored: seq<Path>, a: Disk, b: Disk)
    requires op.RestoreOp? && WellKept(a.records) && b.records == a.records
    requires OnlyAdds(a.files, b.files, Destinations(plan))
    requires forall k :: 0 <= k < |plan| ==>
               && RestoreItem(boundary, a.files, a.dirs, a.records, plan[k], op.restoreRoot)
               && Selects(op.selected, plan[k].quarantine)
    requires forall s :: Chosen(op, a, s) ==> Mentions(plan, s)
    requires sound && AllRecoverable(sha, boundary, op, a) ==>
               && (forall k :: 0 <= k < |plan| ==> plan[k].action == Action.Restore)
               && RestoredSoFar(sha, plan, |plan|, restored, b.files)
    ensures RestoreEffect(sha, boundary, sound, op, a, b)
  {
    forall p | p in b.files && p !in a.files ensures exists s :: Chosen(op, a, s) && Target(op.restoreRoot, s) == p {
      var k :| 0 <= k < |plan| && plan[k].action.Restore? && plan[k].destination.Some?
          && plan[k].destination.value == p;
      assert Chosen(op, a, plan[k].source) && Target(op.restoreRoot, plan[k].source) == p;
    }
    if sound && AllRecoverable(sha, boundary, op, a) {
      forall s | Chosen(op, a, s)
        ensures Target(op.restoreRoot, s) in b.files && sha(b.files[Target(op.restoreRoot, s)]) == a.records[s].sha
      {
        var k :| 0 <= k < |plan| && plan[k].source == s;
        assert RestoreItem(boundary, a.files, a.dirs, a.records, plan[k], op.restoreRoot);
      }
    }
  }

  method RestoreNow(planner: LifecyclePlanner, executor: LifecycleExecutor, op: Op, id: string)
    requires op.RestoreOp? && planner.fs == executor.fs && planner.store == executor.store
    requires planner.boundary == executor.boundary && planner.fs.Valid() && WellKept(planner.store.records)
    modifies planner.fs
    ensures planner.fs.Valid() && old(planner.fs.tick) <= planner.fs.tick
    ensures RestoreEffect(planner.fs.sha, planner.boundary, old(planner.fs.Sound()), op,
                          old(DiskOf(planner.fs, planner.store)), DiskOf(planner.fs, planner.store))
  {
    ghost var sha, boundary, sound := planner.fs.sha, planner.boundary, planner.fs.Sound();
    ghost var a := DiskOf(planner.fs, planner.store);
    var plan := planner.RestorePlan(op.restoreRoot, op.selected);
    if AllRecoverable(sha, boundary, op, a) {
      RestorePlanRestorable(sha, boundary, op, plan, a);
    }
    var answer, restored := executor.Restore(plan, id);
    RestoreHasEffect(sha, boundary, sound, op, plan, restored, a, DiskOf(planner.fs, planner.store));
  }

  method Perform(planner: LifecyclePlanner, executor: LifecycleExecutor, op: Op, id: string, clock: real)
    requires planner.fs == executor.fs && planner.store == executor.store && planner.boundary == executor.boundary
    requires planner.fs.Valid() && WellKept(planner.store.records)
    modifies planner.fs, planner.store
    ensures planner.fs.Valid() && WellKept(planner.store.records) && old(planner.fs.tick) <= planner.fs.tick
    ensures Step(planner.fs.sha, planner.boundary, old(planner.fs.Sound()), op,
                 old(DiskOf(planner.fs, planner.store)), DiskOf(planner.fs, planner.store))
  {
    match op {
      case QuarantineOp(_, _, _, _) => QuarantineNow(planner, executor, op, id, clock);
      case PurgeOp(now) =>
        var purged := PurgeNow(planner, executor, now, id);
      case RestoreOp(_, _) => RestoreNow(planner, executor, op, id);
      case LockOp(source, locked) => planner.store.SetLocked(source, locked);
    }
  }

  /** Whole runs, each step of which has its operation's effect. */
  method Run(fs: FileSystem, store: LifecycleStore, boundary: seq<Safety.Path>, ops: seq<Op>, id: string, clock: real)
    returns (ghost disks: seq<Disk>)
    requires fs.Valid() && WellKept(store.records)
    modifies fs, store
    ensures fs.Valid() && History(fs.sha, boundary, old(fs.Sound()), ops, disks)
    ensures disks[0] == old(DiskOf(fs, store)) && disks[|ops|] == DiskOf(fs, store)
  {
    var planner := new LifecyclePlanner(fs, store, boundary);
    var executor := new LifecycleExecutor(fs, store, boundary);
    ghost var sound := fs.Sound();
    disks := [DiskOf(fs, store)];
    for n := 0 to |ops|
      invariant fs.Valid() && WellKept(store.records) && old(fs.tick) <= fs.tick
      invariant History(fs.sha, boundary, sound, ops[..n], disks)
      invariant disks[0] == old(DiskOf(fs, store)) && disks[n] == DiskOf(fs, store)
    {
      ghost var a := DiskOf(fs, store);
      Perform(planner, executor, ops[n], id, clock);
      HistoryGrows(fs.sha, boundary, sound, ops[..n], disks, ops[n], DiskOf(fs, store));
      disks := disks + [DiskOf(fs, store)];
      assert ops[..n] + [ops[n]] == ops[..n + 1];
    }
    assert ops[..|ops|] == ops;
  }

  lemma HistoryGrows(sha: Bytes -> Digest, boundary: seq<Safety.Path>, sound: bool, ops: seq<Op>, disks: seq<Disk>,
                     op: Op, b: Disk)
    requires History(sha, boundary, sound, ops, disks) && Step(sha, boundary, sound, op, disks[|ops|], b)
    ensures History(sha, boundary, sound, ops + [op], disks + [b])
  {
    var longer, all := disks + [b], ops + [op];
    forall k | 0 <= k < |all| ensures Takes(sha, boundary, sound, all, longer, k) {
      if k < |ops| {
        assert Takes(sha, boundary, sound, ops, disks, k);
        assert all[k] == ops[k] && longer[k] == disks[k] && longer[k + 1] == disks[k + 1];
      }
    }
  }

  // ---------- what holds of every history ----------

  lemma StepAt(sha: Bytes -> Digest, boundary: seq<Safety.Path>, sound: bool, ops: seq<Op>, disks: seq<Disk>, k: nat)
    requires History(sha, boundary, sound, ops, disks) && k < |ops|
    ensures Step(sha, boundary, sound, ops[k], disks[k], disks[k + 1])
    ensures WellKept(disks[k].records)
  {
    assert Takes(sha, boundary, sound, ops, disks, k);
    if k > 0 {
      assert Takes(sha, boundary, sound, ops, disks, k - 1);
    }
  }

  /** The same record but for its lock. */
  predicate SameTerms(a: Record, b: Record) { a == b.(locked := a.locked) }

  /** The record of `s` in state `k` goes back to the quarantine operation number `j`, or, where there is none,
      to the start. */
  ghost predicate GoesBack(sha: Bytes -> Digest, ops: seq<Op>, disks: seq<Disk>, k: nat, s: Path, j: nat)
    requires |disks| == |ops| + 1 && k < |disks| && s in disks[k].records
  {
    && j < k && ops[j].QuarantineOp? && Quarantined(sha, ops[j], disks[j], disks[j + 1], s)
    && SameTerms(disks[j + 1].records[s], disks[k].records[s])
  }

  ghost predicate ThereFromTheStart(disks: seq<Disk>, k: nat, s: Path)
    requires k < |disks| && s in disks[k].records
  {
    s in disks[0].records && SameTerms(disks[0].records[s], disks[k].records[s])
  }

  lemma RecordStep(sha: Bytes -> Digest, boundary: seq<Safety.Path>, sound: bool, ops: seq<Op>, disks: seq<Disk>,
                   k: nat, s: Path)
    requires History(sha, boundary, sound, ops, disks) && k < |ops| && s in disks[k + 1].records
    ensures || (ops[k].QuarantineOp? && Quarantined(sha, ops[k], disks[k], disks[k + 1], s))
            || (s in disks[k].records && SameTerms(disks[k].records[s], disks[k + 1].records[s]))
  {
    StepAt(sha, boundary, sound, ops, disks, k);
    if ops[k].QuarantineOp? {
      assert Quarantined(sha, ops[k], disks[k], disks[k + 1], s) || LeftAlone(ops[k], disks[k], disks[k + 1], s);
    }
  }

  lemma GoesOnBack(sha: Bytes -> Digest, ops: seq<Op>, disks: seq<Disk>, k: nat, s: Path, j: nat)
    requires |disks| == |ops| + 1 && k < |ops| && s in disks[k].records && s in disks[k + 1].records
    requires GoesBack(sha, ops, disks, k, s, j) && SameTerms(disks[k].records[s], disks[k + 1].records[s])
    ensures GoesBack(sha, ops, disks, k + 1, s, j)
  {}

  lemma {:induction false} Origin(sha: Bytes -> Digest, boundary: seq<Safety.Path>, sound: bool, ops: seq<Op>,
                                  disks: seq<Disk>, k: nat, s: Path)
    requires History(sha, boundary, sound, ops, disks) && k < |disks| && s in disks[k].records
    ensures ThereFromTheStart(disks, k, s) || exists j: nat :: GoesBack(sha, ops, disks, k, s, j)
    decreases k
  {
    if k > 0 {
      RecordStep(sha, boundary, sound, ops, disks, k - 1, s);
      if ops[k - 1].QuarantineOp? && Quarantined(sha, ops[k - 1], disks[k - 1], disks[k], s) {
        assert GoesBack(sha, ops, disks, k, s, k - 1);
      } else {
        Origin(sha, boundary, sound, ops, disks, k - 1, s);
        if !ThereFromTheStart(disks, k - 1, s) {
          var j: nat :| GoesBack(sha, ops, disks, k - 1, s, j);
          GoesOnBack(sha, ops, disks, k - 1, s, j);
        }
      }
    }
  }

  /** A file that goes, goes by a purge, as the copy of an unlocked record; and that record was made by a
      quarantine operation whose time plus max(retention, safety window) has passed, or was there from the start
      with a purge time that has. */
  lemma RemovalsAreDue(sha: Bytes -> Digest, boundary: seq<Safety.Path>, sound: bool, ops: seq<Op>, disks: seq<Disk>,
                       k: nat, p: Path)
    requires History(sha, boundary, sound, ops, disks) && k < |ops|
    requires p in disks[k].files && p !in disks[k + 1].files
    ensures ops[k].PurgeOp?
    ensures exists s ::
      && s in disks[k].records && disks[k].records[s].quarantine == p && !disks[k].records[s].locked
      && (|| (ThereFromTheStart(disks, k, s) && disks[0].records[s].purgeAfter <= ops[k].purgeNow)
          || exists j: nat :: GoesBack(sha, ops, disks, k, s, j)
                         && ops[k].purgeNow >= ops[j].now + EffectiveRetention(ops[j].policy))
  {
    StepAt(sha, boundary, sound, ops, disks, k);
    var records, now := disks[k].records, ops[k].purgeNow;
    var s :| s in records && records[s].quarantine == p && !records[s].locked && records[s].purgeAfter <= now;
    Origin(sha, boundary, sound, ops, disks, k, s);
  }

  /** A file that is on record as nobody's copy keeps its bytes. */
  lemma {:induction false} OthersKeepTheirBytes(sha: Bytes -> Digest, boundary: seq<Safety.Path>, sound: bool,
                                                ops: seq<Op>, disks: seq<Disk>, k: nat, p: Path)
    requires History(sha, boundary, sound, ops, disks) && k < |disks| && p in disks[0].files
    requires forall i, s :: 0 <= i < k && s in disks[i].records ==> disks[i].records[s].quarantine != p
    ensures p in disks[k].files && disks[k].files[p] == disks[0].files[p]
    decreases k
  {
    if k > 0 {
      OthersKeepTheirBytes(sha, boundary, sound, ops, disks, k - 1, p);
      StepAt(sha, boundary, sound, ops, disks, k - 1);
      assert !(ops[k - 1].PurgeOp? && Released(disks[k - 1].records, p, ops[k - 1].purgeNow));
    }
  }

  /** The operation neither unlocks the record of `s` nor makes it anew. */
  predicate LeavesLocked(op: Op, s: Path) {
    match op
    case QuarantineOp(paths, _, _, _) => s !in paths
    case LockOp(source, locked) => source == s ==> locked
    case _ => true
  }

  lemma LockedStep(sha: Bytes -> Digest, boundary: seq<Safety.Path>, sound: bool, ops: seq<Op>, disks: seq<Disk>,
                   k: nat, s: Path)
    requires History(sha, boundary, sound, ops, disks) && k < |ops| && LeavesLocked(ops[k], s)
    requires s in disks[k].records && disks[k].records[s].locked
    ensures s in disks[k + 1].records && disks[k + 1].records[s] == disks[k].records[s]
    ensures var q := disks[k].records[s].quarantine;
            q in disks[k].files ==> q in disks[k + 1].files && disks[k + 1].files[q] == disks[k].files[q]
  {
    StepAt(sha, boundary, sound, ops, disks, k);
    var records := disks[k].records;
    assert forall t :: t in records && records[t].quarantine == records[s].quarantine ==> t == s;
  }

  /** From a state in which a record is locked, until it is unlocked or its source quarantined again, the record
      stands and its copy, if it is there, keeps its bytes. */
  lemma {:induction false} LockedStays(sha: Bytes -> Digest, boundary: seq<Safety.Path>, sound: bool, ops: seq<Op>,
                                       disks: seq<Disk>, i: nat, k: nat, s: Path)
    requires History(sha, boundary, sound, ops, disks) && i <= k < |disks|
    requires s in disks[i].records && disks[i].records[s].locked
    requires forall j :: i <= j < k ==> LeavesLocked(ops[j], s)
    ensures s in disks[k].records && disks[k].records[s] == disks[i].records[s]
    ensures var q := disks[i].records[s].quarantine;
            q in disks[i].files ==> q in disks[k].files && disks[k].files[q] == disks[i].files[q]
    decreases k
  {
    if i < k {
      LockedStays(sha, boundary, sound, ops, disks, i, k - 1, s);
      LockedStep(sha, boundary, sound, ops, disks, k - 1, s);
    }
  }

  // ---------- evidence over histories ----------

  /** `owner` says which source, if any, may be quarantined at a path: a source is not itself such a path, two
      sources never share one, and nothing is restored onto one. */
  ghost predicate Placed(op: Op, owner: Path -> Option<Path>) {
    match op
    case QuarantineOp(paths, root, _, _) =>
      forall p :: p in paths ==> owner(p).None? && owner(Target(root, p)) == Some(p)
    case RestoreOp(root, _) => forall name :: owner(Under(root, name)).None?
    case _ => true
  }

  ghost predicate Owned(records: Records, owner: Path -> Option<Path>) {
    forall s :: s in records ==> owner(s).None? && owner(records[s].quarantine) == Some(s)
  }

  lemma QuarantineKeepsAttestation(sha: Bytes -> Digest, op: Op, owner: Path -> Option<Path>, a: Disk, b: Disk)
    requires op.QuarantineOp? && QuarantineEffect(sha, [], false, op, a, b) && Placed(op, owner)
    requires Owned(a.records, owner) && Attestation(sha, a.files, a.records)
    ensures Owned(b.records, owner) && Attestation(sha, b.files, b.records)
  {
    forall s | s in b.records
      ensures owner(s).None? && owner(b.records[s].quarantine) == Some(s) && Attested(sha, b.files, b.records[s])
    {
      if !Quarantined(sha, op, a, b, s) {
        assert LeftAlone(op, a, b, s) && Attested(sha, a.files, a.records[s]);
        assert forall p :: p in op.paths && p != s ==> owner(Target(op.root, p)) != Some(s);
      }
    }
  }

  lemma PurgeKeepsAttestation(sha: Bytes -> Digest, boundary: seq<Safety.Path>, now: real, owner: Path -> Option<Path>,
                              a: Disk, b: Disk)
    requires PurgeEffect(boundary, false, now, a, b) && Owned(a.records, owner) && Attestation(sha, a.files, a.records)
    requires forall s :: s in a.records ==> a.records[s].source == s
    ensures Attestation(sha, b.files, b.records)
  {
    forall s | s in b.records ensures Attested(sha, b.files, b.records[s]) {
      assert Attested(sha, a.files, a.records[s]);
      assert !Released(a.records, s, now);
    }
  }

  lemma RestoreKeepsAttestation(sha: Bytes -> Digest, op: Op, owner: Path -> Option<Path>, a: Disk, b: Disk)
    requires op.RestoreOp? && RestoreEffect(sha, [], false, op, a, b) && Placed(op, owner)
    requires Owned(a.records, owner) && Attestation(sha, a.files, a.records)
    ensures Attestation(sha, b.files, b.records)
  {
    forall s | s in b.records ensures Attested(sha, b.files, b.records[s]) {
      assert Attested(sha, a.files, a.records[s]);
      assert forall t :: Target(op.restoreRoot, t) != a.records[s].quarantine;
    }
  }

  lemma StepKeepsOwned(sha: Bytes -> Digest, boundary: seq<Safety.Path>, sound: bool, ops: seq<Op>, disks: seq<Disk>,
                       owner: Path -> Option<Path>, k: nat)
    requires History(sha, boundary, sound, ops, disks) && k < |ops| && Placed(ops[k], owner)
    requires Owned(disks[k].records, owner)
    ensures Owned(disks[k + 1].records, owner)
  {
    var records := disks[k + 1].records;
    forall s | s in records ensures owner(s).None? && owner(records[s].quarantine) == Some(s) {
      RecordStep(sha, boundary, sound, ops, disks, k, s);
    }
  }

  lemma {:induction false} AlwaysOwned(sha: Bytes -> Digest, boundary: seq<Safety.Path>, sound: bool, ops: seq<Op>,
                                       disks: seq<Disk>, owner: Path -> Option<Path>, k: nat)
    requires History(sha, boundary, sound, ops, disks) && k < |disks| && Owned(disks[0].records, owner)
    requires forall i :: 0 <= i < |ops| ==> Placed(ops[i], owner)
    ensures Owned(disks[k].records, owner)
    decreases k
  {
    if k > 0 {
      AlwaysOwned(sha, boundary, sound, ops, disks, owner, k - 1);
      StepKeepsOwned(sha, boundary, sound, ops, disks, owner, k - 1);
    }
  }

  /** So every source, and every other path that is no source's quarantine path, keeps its bytes. */
  lemma SourcesKeepTheirBytes(sha: Bytes -> Digest, boundary: seq<Safety.Path>, sound: bool, ops: seq<Op>,
                              disks: seq<Disk>, owner: Path -> Option<Path>, k: nat, p: Path)
    requires History(sha, boundary, sound, ops, disks) && k < |disks| && Owned(disks[0].records, owner)
    requires forall i :: 0 <= i < |ops| ==> Placed(ops[i], owner)
    requires p in disks[0].files && owner(p).None?
    ensures p in disks[k].files && disks[k].files[p] == disks[0].files[p]
  {
    forall i, s | 0 <= i < k && s in disks[i].records ensures disks[i].records[s].quarantine != p {
      AlwaysOwned(sha, boundary, sound, ops, disks, owner, i);
    }
    OthersKeepTheirBytes(sha, boundary, sound, ops, disks, k, p);
  }

  lemma StepKeepsAttestation(sha: Bytes -> Digest, boundary: seq<Safety.Path>, sound: bool, ops: seq<Op>,
                             disks: seq<Disk>, owner: Path -> Option<Path>, k: nat)
    requires History(sha, boundary, sound, ops, disks) && k < |ops| && Placed(ops[k], owner)
    requires Owned(disks[k].records, owner) && Attestation(sha, disks[k].files, disks[k].records)
    ensures Attestation(sha, disks[k + 1].files, disks[k + 1].records)
  {
    StepAt(sha, boundary, sound, ops, disks, k);
    var op, a, b := ops[k], disks[k], disks[k + 1];
    match op
    case QuarantineOp(_, _, _, _) => QuarantineKeepsAttestation(sha, op, owner, a, b);
    case PurgeOp(now) => PurgeKeepsAttestation(sha, boundary, now, owner, a, b);
    case RestoreOp(_, _) => RestoreKeepsAttestation(sha, op, owner, a, b);
    case LockOp(_, _) =>
      forall s | s in b.records ensures Attested(sha, b.files, b.records[s]) {
        assert Attested(sha, a.files, a.records[s]);
      }
  }

  /** Whatever the digest function: with every source keeping a quarantine path of its own, in every state of
      every history each recorded copy that is present has its recorded digest, and its recorded size too unless
      it and its source are byte strings of different lengths with one digest. */
  lemma {:induction false} AlwaysAttested(sha: Bytes -> Digest, boundary: seq<Safety.Path>, sound: bool, ops: seq<Op>,
                                          disks: seq<Disk>, owner: Path -> Option<Path>, k: nat)
    requires History(sha, boundary, sound, ops, disks) && k < |disks|
    requires forall i :: 0 <= i < |ops| ==> Placed(ops[i], owner)
    requires Owned(disks[0].records, owner) && Attestation(sha, disks[0].files, disks[0].records)
    ensures Owned(disks[k].records, owner) && Attestation(sha, disks[k].files, disks[k].records)
    decreases k
  {
    AlwaysOwned(sha, boundary, sound, ops, disks, owner, k);
    if k > 0 {
      AlwaysAttested(sha, boundary, sound, ops, disks, owner, k - 1);
      StepKeepsAttestation(sha, boundary, sound, ops, disks, owner, k - 1);
    }
  }

  /** So `reconcile` calls a record corrupt only by showing two byte strings of different lengths with one digest. */
  lemma NeverCorrupt(sha: Bytes -> Digest, boundary: seq<Safety.Path>, sound: bool, ops: seq<Op>, disks: seq<Disk>,
                     owner: Path -> Option<Path>, k: nat, s: Path)
    requires History(sha, boundary, sound, ops, disks) && k < |disks| && s in disks[k].records
    requires forall i :: 0 <= i < |ops| ==> Placed(ops[i], owner)
    requires Owned(disks[0].records, owner) && Attestation(sha, disks[0].files, disks[0].records)
    ensures Reconciled(sha, disks[k].files, disks[k].records[s]) == CorruptQuarantine ==>
              var files, r := disks[k].files, disks[k].records[s];
              && r.quarantine in files && r.source in files && |files[r.source]| != |files[r.quarantine]|
              && sha(files[r.source]) == sha(files[r.quarantine])
  {
    AlwaysAttested(sha, boundary, sound, ops, disks, owner, k);
    CorruptOnlyByCollision(sha, disks[k].files, disks[k].records[s]);
  }

  // ---------- what goes wrong when two sources share a path ----------

  const FIRST: Path := ["a", "f"]
  const SECOND: Path := ["b", "f"]
  const SHARED: Path := ["q", "f"]

  function BothThere(x: Bytes, y: Bytes): map<Path, Bytes> { map[FIRST := x, SECOND := y] }

  lemma FirstIsClear(x: Bytes, y: Bytes, now: Policy)
    ensures AllClear([], QuarantineOp([FIRST], ["q"], now, 0.0), Disk(BothThere(x, y), {[], ["a"], ["b"]}, map[]))
    ensures Target(["q"], FIRST) == SHARED == Target(["q"], SECOND)
  {
    assert Parent(SHARED) == ["q"];
    assert |FIRST| == |SECOND| == |SHARED| == 2 && FIRST[0] != SHARED[0] && SECOND[0] != SHARED[0];
    assert Clear([], FIRST, SHARED, BothThere(x, y), {[], ["a"], ["b"]});
  }

  /** The first source is on record and its copy, at the shared path, may be purged. */
  ghost predicate FirstDone(sha: Bytes -> Digest, x: Bytes, y: Bytes, d: Disk) {
    && (forall p :: p in d.files ==> p == FIRST || p == SECOND || p == SHARED)
    && SECOND in d.files && d.files[SECOND] == y && SHARED in d.files
    && d.records.Keys == {FIRST}
    && var r := d.records[FIRST];
       r.quarantine == SHARED && r.size == |x| && r.sha == sha(x) && !r.locked && r.purgeAfter == 0.0
  }

  lemma FirstIsDone(sha: Bytes -> Digest, x: Bytes, y: Bytes, now: Policy, a: Disk, b: Disk)
    requires EffectiveRetention(now) == 0.0 && a == Disk(BothThere(x, y), {[], ["a"], ["b"]}, map[])
    requires QuarantineEffect(sha, [], true, QuarantineOp([FIRST], ["q"], now, 0.0), a, b)
    ensures FirstDone(sha, x, y, b)
  {
    FirstIsClear(x, y, now);
    var op := QuarantineOp([FIRST], ["q"], now, 0.0);
    assert FIRST in op.paths && Quarantined(sha, op, a, b, FIRST);
    forall s | s in b.records ensures s == FIRST {
      assert Quarantined(sha, op, a, b, s) || LeftAlone(op, a, b, s);
    }
    assert OnlyAdds(a.files, b.files, set p | p in op.paths :: Target(op.root, p));
    assert SECOND != SHARED && SECOND in a.files;
  }

  lemma FirstIsPurged(sha: Bytes -> Digest, x: Bytes, y: Bytes, b: Disk, c: Disk)
    requires FirstDone(sha, x, y, b) && PurgeEffect([], true, 0.0, b, c) && SHARED !in b.dirs
    ensures Vacated(sha, x, y, c)
  {
    assert Released(b.records, SHARED, 0.0);
    assert !Released(b.records, SECOND, 0.0);
  }

  lemma OnlyRecordCorrupt(sha: Bytes -> Digest, files: map<Path, Bytes>, records: Records)
    requires records.Keys == {FIRST} && !Evidence(sha, files, records)
    ensures Reconciled(sha, files, records[FIRST]) == CorruptQuarantine
  {}

  /** Two sources of one name, quarantined one after the other at the same root with a purge in between: the
      second copy takes the path of the first, whose record still stands; `put` raises, and `reconcile` calls the
      first record corrupt, although no I/O call failed. */
  method SharedTargetRun(x: Bytes, y: Bytes, sha: Bytes -> Digest, id: string)
    returns (answer: Answer, findings: Result<seq<(Path, Finding)>, Error>)
    requires |x| != |y| || sha(x) != sha(y)
    ensures answer == Threw(IntegrityError)
    ensures findings.Ok? && findings.value == [(FIRST, CorruptQuarantine)]
  {
    var fs := new FileSystem(BothThere(x, y), {[], ["a"], ["b"]}, n => false, (n, b) => b, sha, n => "");
    var store := new LifecycleStore();
    var planner := new LifecyclePlanner(fs, store, []);
    var executor := new LifecycleExecutor(fs, store, []);
    var now := Policy(0.0, 0.0);
    ComeAndGo(planner, executor, x, y, now, id);
    answer, findings := TakeItsPlace(planner, executor, x, y, now, id);
  }

  method ComeAndGo(planner: LifecyclePlanner, executor: LifecycleExecutor, ghost x: Bytes, ghost y: Bytes, now: Policy,
                   id: string)
    requires planner.fs == executor.fs && planner.store == executor.store && planner.boundary == executor.boundary == []
    requires planner.fs.Valid() && planner.fs.Sound() && EffectiveRetention(now) == 0.0
    requires DiskOf(planner.fs, planner.store) == Disk(BothThere(x, y), {[], ["a"], ["b"]}, map[])
    modifies planner.fs, planner.store
    ensures planner.fs.Valid() && planner.fs.Sound() && WellKept(planner.store.records)
    ensures Vacated(planner.fs.sha, x, y, DiskOf(planner.fs, planner.store))
  {
    ghost var start := DiskOf(planner.fs, planner.store);
    QuarantineNow(planner, executor, QuarantineOp([FIRST], ["q"], now, 0.0), id, 0.0);
    ghost var quarantined := DiskOf(planner.fs, planner.store);
    FirstIsDone(planner.fs.sha, x, y, now, start, quarantined);
    var purged := PurgeNow(planner, executor, 0.0, id);
    FirstIsPurged(planner.fs.sha, x, y, quarantined, DiskOf(planner.fs, planner.store));
  }

  /** The first source is on record at the shared path, which is free again. */
  ghost predicate Vacated(sha: Bytes -> Digest, x: Bytes, y: Bytes, d: Disk) {
    && (forall p :: p in d.files ==> p == FIRST || p == SECOND)
    && SECOND in d.files && d.files[SECOND] == y && SHARED !in d.dirs
    && d.records.Keys == {FIRST} && d.records[FIRST].quarantine == SHARED
    && d.records[FIRST].size == |x| && d.records[FIRST].sha == sha(x)
  }

  method TakeItsPlace(planner: LifecyclePlanner, executor: LifecycleExecutor, ghost x: Bytes, y: Bytes, now: Policy,
                      id: string)
    returns (answer: Answer, findings: Result<seq<(Path, Finding)>, Error>)
    requires planner.fs == executor.fs && planner.store == executor.store && planner.boundary == executor.boundary == []
    requires planner.fs.Valid() && planner.fs.Sound() && WellKept(planner.store.records)
    requires Vacated(planner.fs.sha, x, y, DiskOf(planner.fs, planner.store))
    requires |x| != |y| || planner.fs.sha(x) != planner.fs.sha(y)
    modifies planner.fs, planner.store
    ensures answer == Threw(IntegrityError)
    ensures findings.Ok? && findings.value == [(FIRST, CorruptQuarantine)]
  {
    FirstIsClear(x, y, now);
    var second := planner.PlanOne(SECOND, ["q"], now, 0.0);
    assert Taken(planner.store.records, second.value) by { assert FIRST in planner.store.records && FIRST != SECOND; }
    assert !OthersMatch(planner.fs.sha, planner.store.records, second.value, y);
    answer := executor.QuarantineOne(second.value, id, 0.0);
    OnlyRecordCorrupt(planner.fs.sha, planner.fs.files, planner.store.records);
    findings := planner.Reconcile();
    assert |planner.store.records| == |planner.store.records.Keys| == 1;
  }
}
