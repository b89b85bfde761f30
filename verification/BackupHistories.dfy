/** Any sequence of applications, locks, purges and restores of backups, with a fault possible at every I/O call
    (teldrive_lab/backups.py).  `Run` performs one and shows its states; when the files of a locked backup stand
    is proved from the effect each operation has. */
module BackupHistories {
  import opened Base
  import opened Files
  import opened Retention
  import opened Backups
  import opened BackupRuns
  import BackupRecords
  import Safety

  type Digests = BackupRecords.BackupPlan -> Digest

  datatype Op =
    | ApplyOp(plan: Plan)
    | LockOp(digest: Digest)
    | PurgeOp(plan: Plan, clock: real)
    | RestoreOp(plan: Plan, root: Path)

  /** What is on disk and on record. */
  datatype Disk = Disk(files: map<Path, Bytes>, dirs: set<Path>, tables: BackupRecords.Tables)

  ghost function DiskOf(executor: BackupExecutor): Disk
    reads executor.fs, executor.store
  {
    Disk(executor.fs.files, executor.fs.dirs, executor.store.State())
  }

  // ---------- what one operation does ----------

  /** A purge of a plan that is due and has this place. */
  predicate Strikes(digest: Digests, op: Op, a: Disk, p: Path) {
    op.PurgeOp? && BackupRecords.Due(a.tables, digest, Rows(op.plan), op.clock) && p in Places(op.plan)
  }

  ghost predicate ApplyEffect(digest: Digests, op: Op, a: Disk, b: Disk)
    requires op.ApplyOp?
  {
    && Alone(op.plan, a.files, b.files)
    && (b.tables == a.tables || b.tables == BackupRecords.PutInto(a.tables, digest(Rows(op.plan)), Rows(op.plan)))
  }

  /** Only files of a due plan go; without faults, and where nothing keeps them, they all do. */
  ghost predicate PurgeEffect(digest: Digests, boundary: seq<Safety.Path>, sound: bool, op: Op, a: Disk, b: Disk)
    requires op.PurgeOp?
  {
    && b.tables == a.tables && b.dirs == a.dirs
    && (forall p :: p in b.files ==> p in a.files && b.files[p] == a.files[p])
    && (forall p :: p in a.files && p !in b.files ==> Strikes(digest, op, a, p))
    && (sound && Removable(boundary, op.plan, a.dirs) ==> forall p :: Strikes(digest, op, a, p) ==> p !in b.files)
  }

  ghost predicate RestoreEffect(a: Disk, b: Disk) {
    b.tables == a.tables && forall p :: p in a.files ==> p in b.files && b.files[p] == a.files[p]
  }

  ghost predicate Step(digest: Digests, boundary: seq<Safety.Path>, sound: bool, op: Op, a: Disk, b: Disk) {
    match op
    case ApplyOp(_) => ApplyEffect(digest, op, a, b)
    case LockOp(d) => b == a.(tables := BackupRecords.LockIn(a.tables, d))
    case PurgeOp(_, _) => PurgeEffect(digest, boundary, sound, op, a, b)
    case RestoreOp(_, _) => RestoreEffect(a, b)
  }

  /** `disks` are the states before, between and after the operations; `sound` says that no I/O call fails. */
  ghost predicate History(digest: Digests, boundary: seq<Safety.Path>, sound: bool, ops: seq<Op>, disks: seq<Disk>) {
    && |disks| == |ops| + 1
    && forall k :: 0 <= k < |ops| ==> Takes(digest, boundary, sound, ops, disks, k)
  }

  ghost predicate Takes(digest: Digests, boundary: seq<Safety.Path>, sound: bool, ops: seq<Op>, disks: seq<Disk>,
                        k: nat)
    requires |disks| == |ops| + 1 && k < |ops|
  {
    Step(digest, boundary, sound, ops[k], disks[k], disks[k + 1])
  }

  // ---------- performing them ----------

  lemma PurgeHasEffect(digest: Digests, boundary: seq<Safety.Path>, sound: bool, op: Op, removed: seq<Path>, a: Disk,
                       b: Disk)
    requires op.PurgeOp? && b.tables == a.tables && b.dirs == a.dirs
    requires if BackupRecords.Due(a.tables, digest, Rows(op.plan), op.clock)
             then Purged(op.plan, removed, a.files, b.files)
                  && (sound && Removable(boundary, op.plan, a.dirs) ==>
                        forall p :: p in Places(op.plan) ==> p !in b.files)
             else b.files == a.files
    ensures PurgeEffect(digest, boundary, sound, op, a, b)
  {}

  method Perform(executor: BackupExecutor, op: Op, id: string)
    requires executor.fs.Valid()
    modifies executor.fs, executor.store
    ensures executor.fs.Valid() && old(executor.fs.tick) <= executor.fs.tick
    ensures Step(executor.store.digest, executor.boundary, old(executor.fs.Sound()), op, old(DiskOf(executor)),
                 DiskOf(executor))
  {
    ghost var a0, sound := DiskOf(executor), executor.fs.Sound();
    match op {
      case ApplyOp(plan) =>
        var a, changed := executor.Apply(plan, id, [], "");
      case LockOp(d) =>
        var locked := executor.store.Lock(d);
      case PurgeOp(plan, clock) =>
        var a, removed := executor.Purge(plan, id, clock);
        PurgeHasEffect(executor.store.digest, executor.boundary, sound, op, removed, a0, DiskOf(executor));
      case RestoreOp(plan, root) =>
        var a, restored := executor.Restore(plan, root, id);
    }
  }

  /** Whole runs, each step of which has its operation's effect. */
  method Run(executor: BackupExecutor, ops: seq<Op>, id: string) returns (ghost disks: seq<Disk>)
    requires executor.fs.Valid()
    modifies executor.fs, executor.store
    ensures executor.fs.Valid()
    ensures History(executor.store.digest, executor.boundary, old(executor.fs.Sound()), ops, disks)
    ensures disks[0] == old(DiskOf(executor)) && disks[|ops|] == DiskOf(executor)
  {
    ghost var digest, boundary, sound := executor.store.digest, executor.boundary, executor.fs.Sound();
    disks := [DiskOf(executor)];
    for n := 0 to |ops|
      invariant executor.fs.Valid() && old(executor.fs.tick) <= executor.fs.tick
      invariant History(digest, boundary, sound, ops[..n], disks)
      invariant disks[0] == old(DiskOf(executor)) && disks[n] == DiskOf(executor)
    {
      ghost var a := DiskOf(executor);
      Perform(executor, ops[n], id);
      HistoryGrows(digest, boundary, sound, ops[..n], disks, ops[n], DiskOf(executor));
      disks := disks + [DiskOf(executor)];
      assert ops[..n] + [ops[n]] == ops[..n + 1];
    }
    assert ops[..|ops|] == ops;
  }

  lemma HistoryGrows(digest: Digests, boundary: seq<Safety.Path>, sound: bool, ops: seq<Op>, disks: seq<Disk>, op: Op,
                     b: Disk)
    requires History(digest, boundary, sound, ops, disks) && Step(digest, boundary, sound, op, disks[|ops|], b)
    ensures History(digest, boundary, sound, ops + [op], disks + [b])
  {
    var longer, all := disks + [b], ops + [op];
    forall k | 0 <= k < |all| ensures Takes(digest, boundary, sound, all, longer, k) {
      if k < |ops| {
        assert Takes(digest, boundary, sound, ops, disks, k);
        assert all[k] == ops[k] && longer[k] == disks[k] && longer[k + 1] == disks[k + 1];
      }
    }
  }

  // ---------- when a file stands ----------

  ghost predicate Struck(digest: Digests, ops: seq<Op>, disks: seq<Disk>, i: nat, k: nat, p: Path)
    requires |disks| == |ops| + 1 && k < |disks|
  {
    exists j :: i <= j < k && Strikes(digest, ops[j], disks[j], p)
  }

  ghost predicate StandsFrom(disks: seq<Disk>, i: nat, k: nat, p: Path)
    requires k < |disks|
  {
    forall j :: i <= j <= k ==> p in disks[j].files
  }

  /** No purge of a due plan between the two states is kept from unlinking its files. */
  ghost predicate PurgesGoThrough(digest: Digests, boundary: seq<Safety.Path>, ops: seq<Op>, disks: seq<Disk>, i: nat,
                                  k: nat)
    requires |disks| == |ops| + 1 && k < |disks|
  {
    forall j :: i <= j < k && ops[j].PurgeOp?
                && BackupRecords.Due(disks[j].tables, digest, Rows(ops[j].plan), ops[j].clock) ==>
      Removable(boundary, ops[j].plan, disks[j].dirs)
  }

  lemma FileStep(digest: Digests, boundary: seq<Safety.Path>, sound: bool, ops: seq<Op>, disks: seq<Disk>, k: nat,
                 p: Path)
    requires History(digest, boundary, sound, ops, disks) && k < |ops| && p in disks[k].files
    ensures !Strikes(digest, ops[k], disks[k], p) ==> p in disks[k + 1].files
    ensures !Strikes(digest, ops[k], disks[k], p) && (ops[k].ApplyOp? ==> ops[k].plan.manifest != p) ==>
              disks[k + 1].files[p] == disks[k].files[p]
    ensures Strikes(digest, ops[k], disks[k], p) && sound && Removable(boundary, ops[k].plan, disks[k].dirs) ==>
              p !in disks[k + 1].files
  {
    assert Takes(digest, boundary, sound, ops, disks, k);
  }

  /** With faults anywhere: a file that no due purge strikes stands, and keeps its bytes unless an applied plan has
      its manifest there. */
  lemma {:induction false} UnstruckStands(digest: Digests, boundary: seq<Safety.Path>, sound: bool, ops: seq<Op>,
                                          disks: seq<Disk>, i: nat, k: nat, p: Path)
    requires History(digest, boundary, sound, ops, disks) && i <= k < |disks| && p in disks[i].files
    requires !Struck(digest, ops, disks, i, k, p)
    ensures StandsFrom(disks, i, k, p)
    ensures (forall j :: i <= j < k && ops[j].ApplyOp? ==> ops[j].plan.manifest != p) ==>
              disks[k].files[p] == disks[i].files[p]
    decreases k
  {
    if i < k {
      UnstruckStands(digest, boundary, sound, ops, disks, i, k - 1, p);
      FileStep(digest, boundary, sound, ops, disks, k - 1, p);
    }
  }

  /** Without faults, a file stands all the way exactly when no purge of a due plan strikes it. */
  lemma FileStandsIff(digest: Digests, boundary: seq<Safety.Path>, ops: seq<Op>, disks: seq<Disk>, i: nat, k: nat,
                      p: Path)
    requires History(digest, boundary, true, ops, disks) && i <= k < |disks| && p in disks[i].files
    requires PurgesGoThrough(digest, boundary, ops, disks, i, k)
    ensures StandsFrom(disks, i, k, p) <==> !Struck(digest, ops, disks, i, k, p)
  {
    if Struck(digest, ops, disks, i, k, p) {
      var j :| i <= j < k && Strikes(digest, ops[j], disks[j], p);
      if p in disks[j].files {
        FileStep(digest, boundary, true, ops, disks, j, p);
      }
    } else {
      UnstruckStands(digest, boundary, true, ops, disks, i, k, p);
    }
  }

  // ---------- when a locked backup stands ----------

  /** Nothing in between puts a plan with this digest. */
  ghost predicate NotPutAgain(digest: Digests, ops: seq<Op>, i: nat, k: nat, d: Digest)
    requires k <= |ops|
  {
    forall j :: i <= j < k && ops[j].ApplyOp? ==> digest(Rows(ops[j].plan)) != d
  }

  lemma LockStep(digest: Digests, boundary: seq<Safety.Path>, sound: bool, ops: seq<Op>, disks: seq<Disk>, k: nat,
                 d: Digest)
    requires History(digest, boundary, sound, ops, disks) && k < |ops| && BackupRecords.IsLocked(disks[k].tables, d)
    requires ops[k].ApplyOp? ==> digest(Rows(ops[k].plan)) != d
    ensures BackupRecords.IsLocked(disks[k + 1].tables, d)
  {
    assert Takes(digest, boundary, sound, ops, disks, k);
  }

  /** A locked digest stays locked until it is put again. */
  lemma {:induction false} StaysLocked(digest: Digests, boundary: seq<Safety.Path>, sound: bool, ops: seq<Op>,
                                       disks: seq<Disk>, i: nat, k: nat, d: Digest)
    requires History(digest, boundary, sound, ops, disks) && i <= k < |disks|
    requires BackupRecords.IsLocked(disks[i].tables, d) && NotPutAgain(digest, ops, i, k, d)
    ensures BackupRecords.IsLocked(disks[k].tables, d)
    decreases k
  {
    if i < k {
      StaysLocked(digest, boundary, sound, ops, disks, i, k - 1, d);
      LockStep(digest, boundary, sound, ops, disks, k - 1, d);
    }
  }

  /** All copies of the backup are there, in every state from the one to the other. */
  ghost predicate BackupStands(disks: seq<Disk>, i: nat, k: nat, q: Plan)
    requires k < |disks|
  {
    forall n :: 0 <= n < |q.items| ==> StandsFrom(disks, i, k, q.items[n].destination)
  }

  /** A purge of a due plan shares a place with a copy of this backup. */
  ghost predicate Meets(digest: Digests, op: Op, a: Disk, q: Plan) {
    exists n :: 0 <= n < |q.items| && Strikes(digest, op, a, q.items[n].destination)
  }

  /** Locking protects the record, not the files: between a state in which a backup is locked and all its copies
      are there, and any later one, its copies stand exactly when no purge of another plan that is due and not
      locked itself has a place in common with them. */
  lemma LockedBackupStandsIff(digest: Digests, boundary: seq<Safety.Path>, ops: seq<Op>, disks: seq<Disk>, i: nat,
                              k: nat, q: Plan)
    requires History(digest, boundary, true, ops, disks) && i <= k < |disks|
    requires PurgesGoThrough(digest, boundary, ops, disks, i, k)
    requires BackupRecords.IsLocked(disks[i].tables, digest(Rows(q))) && NotPutAgain(digest, ops, i, k, digest(Rows(q)))
    requires forall n :: 0 <= n < |q.items| ==> q.items[n].destination in disks[i].files
    ensures BackupStands(disks, i, k, q) <==> forall j :: i <= j < k ==> !Meets(digest, ops[j], disks[j], q)
    ensures forall j :: i <= j < k && Meets(digest, ops[j], disks[j], q) ==>
              digest(Rows(ops[j].plan)) != digest(Rows(q))
  {
    forall n | 0 <= n < |q.items|
      ensures StandsFrom(disks, i, k, q.items[n].destination)
         <==> !Struck(digest, ops, disks, i, k, q.items[n].destination)
    {
      FileStandsIff(digest, boundary, ops, disks, i, k, q.items[n].destination);
    }
    if forall j :: i <= j < k ==> !Meets(digest, ops[j], disks[j], q) {
      forall n | 0 <= n < |q.items| ensures !Struck(digest, ops, disks, i, k, q.items[n].destination) {
        forall j | i <= j < k ensures !Strikes(digest, ops[j], disks[j], q.items[n].destination) {
          assert !Meets(digest, ops[j], disks[j], q);
        }
      }
    }
    forall j | i <= j < k && Meets(digest, ops[j], disks[j], q)
      ensures !BackupStands(disks, i, k, q) && digest(Rows(ops[j].plan)) != digest(Rows(q))
    {
      var n :| 0 <= n < |q.items| && Strikes(digest, ops[j], disks[j], q.items[n].destination);
      assert Struck(digest, ops, disks, i, k, q.items[n].destination);
      StaysLocked(digest, boundary, true, ops, disks, i, j, digest(Rows(q)));
    }
  }

  /** In particular a locked backup whose copies are nobody else's stands, with its bytes, whatever else happens and
      whatever fails. */
  lemma UnsharedBackupStands(digest: Digests, boundary: seq<Safety.Path>, sound: bool, ops: seq<Op>, disks: seq<Disk>,
                             i: nat, k: nat, q: Plan, n: nat)
    requires History(digest, boundary, sound, ops, disks) && i <= k < |disks| && n < |q.items|
    requires BackupRecords.IsLocked(disks[i].tables, digest(Rows(q))) && NotPutAgain(digest, ops, i, k, digest(Rows(q)))
    requires q.items[n].destination in disks[i].files
    requires forall j :: i <= j < k && (ops[j].PurgeOp? || ops[j].ApplyOp?) && Rows(ops[j].plan) != Rows(q) ==>
               q.items[n].destination !in Places(ops[j].plan)
    ensures var p := q.items[n].destination;
            StandsFrom(disks, i, k, p) && disks[k].files[p] == disks[i].files[p]
  {
    var p := q.items[n].destination;
    forall j | i <= j < k ensures !Strikes(digest, ops[j], disks[j], p) {
      StaysLocked(digest, boundary, sound, ops, disks, i, j, digest(Rows(q)));
    }
    UnstruckStands(digest, boundary, sound, ops, disks, i, k, p);
  }

  // ---------- how the files of a locked backup are lost ----------

  const SOURCE: Raw := Raw("/a/f", ["a", "f"])
  const COPY: Path := ["k", "f"]

  function Only(x: Bytes): map<Path, Bytes> { map[SOURCE.path := x] }

  /** Directories made under the root so far. */
  predicate Grown(dirs: set<Path>) {
    forall d :: d in dirs ==> d == [] || d == ["a"] || d <= ["k", MANIFESTS]
  }

  lemma SourceUnhindered(x: Bytes, dirs: set<Path>, stamp: string)
    requires Grown(dirs)
    ensures Unhindered([], [SOURCE], ["k"], stamp, Only(x), dirs)
    ensures Sort([SOURCE], RawText) == [SOURCE]
  {
    assert [SOURCE][1..] == [];
    assert Name(SOURCE.path) == "f" && "f" != MANIFESTS && COPY == ["k"] + ["f"];
    assert SOURCE.path[0] != COPY[0];
    NotGrown(dirs, stamp);
  }

  /** None of the places of a backup of the source is a directory. */
  lemma NotGrown(dirs: set<Path>, stamp: string)
    requires Grown(dirs)
    ensures COPY !in dirs && ["k", MANIFESTS, stamp] !in dirs && ["k"] + [MANIFESTS, stamp] == ["k", MANIFESTS, stamp]
  {
    assert COPY[1] == "f" && ["k", MANIFESTS][1] == MANIFESTS && "f" != MANIFESTS && COPY[0] == "k";
  }

  /** A plan for the source alone. */
  predicate OfSource(plan: Plan, at: real, stamp: string) {
    && |plan.items| == 1 && plan.items[0].source == SOURCE.path && plan.items[0].destination == COPY
    && plan.manifest == ["k", MANIFESTS, stamp] && plan.createdAt == plan.purgeAfter == at
  }

  /** A fault-free backup of the source where there is nothing else. */
  method BackUpSource(planner: BackupPlanner, executor: BackupExecutor, ghost x: Bytes, at: real, stamp: string,
                      id: string)
    returns (plan: Plan)
    requires planner.fs == executor.fs && planner.boundary == executor.boundary == []
    requires executor.fs.Valid() && executor.fs.Sound() && executor.store.Valid()
    requires executor.fs.files == Only(x) && Grown(executor.fs.dirs)
    modifies executor.fs, executor.store
    ensures executor.fs.Valid() && executor.fs.Sound() && executor.store.Valid()
    ensures OfSource(plan, at, stamp) && Grown(executor.fs.dirs)
    ensures executor.store.State()
         == BackupRecords.PutInto(old(executor.store.State()), executor.store.digest(Rows(plan)), Rows(plan))
    ensures SOURCE.path in executor.fs.files && executor.fs.files[SOURCE.path] == x && COPY in executor.fs.files
    ensures forall p :: p in executor.fs.files ==> p == SOURCE.path || p in Places(plan)
  {
    SourceUnhindered(x, executor.fs.dirs, stamp);
    var made, applied, states := BackUp(planner, executor, [SOURCE], ["k"], Policy(0.0, 0.0), at, stamp, id);
    plan := made.value;
    assert plan.items[0].destination == COPY && StateOf(executor.fs.sha, executor.fs.files, plan.items[0]) == Verified;
  }

  lemma SourceIsRemovable(plan: Plan, at: real, stamp: string, dirs: set<Path>)
    requires OfSource(plan, at, stamp) && Grown(dirs)
    ensures Removable([], plan, dirs) && SOURCE.path !in Places(plan) && COPY in Places(plan)
  {
    NotGrown(dirs, stamp);
    assert plan.items[0].destination == COPY;
    assert Places(plan) == {COPY, plan.manifest};
    assert |SOURCE.path| != |plan.manifest| && SOURCE.path[0] != COPY[0];
  }

  /** Back up, and purge when its time has come. */
  method ComeAndGone(planner: BackupPlanner, executor: BackupExecutor, ghost x: Bytes, id: string)
    returns (plan: Plan)
    requires planner.fs == executor.fs && planner.boundary == executor.boundary == []
    requires executor.fs.Valid() && executor.fs.Sound() && executor.store.Valid()
    requires executor.fs.files == Only(x) && Grown(executor.fs.dirs)
    modifies executor.fs, executor.store
    ensures executor.fs.Valid() && executor.fs.Sound() && executor.store.Valid()
    ensures OfSource(plan, 0.0, "m") && executor.fs.files == Only(x) && Grown(executor.fs.dirs)
    ensures executor.store.State()
         == BackupRecords.PutInto(old(executor.store.State()), executor.store.digest(Rows(plan)), Rows(plan))
  {
    plan := BackUpSource(planner, executor, x, 0.0, "m", id);
    SourceIsRemovable(plan, 0.0, "m", executor.fs.dirs);
    ghost var files := executor.fs.files;
    var a, removed := executor.Purge(plan, id, 0.0);
    OnlySourceLeft(x, plan, removed, files, executor.fs.files);
  }

  lemma OnlySourceLeft(x: Bytes, plan: Plan, removed: seq<Path>, before: map<Path, Bytes>, files: map<Path, Bytes>)
    requires Purged(plan, removed, before, files) && SOURCE.path in before && before[SOURCE.path] == x
    requires SOURCE.path !in Places(plan) && forall p :: p in Places(plan) ==> p !in files
    requires forall p :: p in before ==> p == SOURCE.path || p in Places(plan)
    ensures files == Only(x)
  {
    assert SOURCE.path in files;
  }

  /** The earlier plan, though its files went long ago, is still on record and still due. */
  lemma StillListed(digest: Digests, t: BackupRecords.Tables, p: Plan, q: Plan, from: seq<Digest>,
                    ready: seq<BackupRecords.BackupPlan>)
    requires OfSource(p, 0.0, "m") && digest(Rows(p)) != digest(Rows(q))
    requires var empty := BackupRecords.Tables(map[], map[]);
             var one := BackupRecords.PutInto(empty, digest(Rows(p)), Rows(p));
             t == BackupRecords.LockIn(BackupRecords.PutInto(one, digest(Rows(q)), Rows(q)), digest(Rows(q)))
    requires BackupRecords.Listing(t, digest, 1.0, from, ready)
    ensures BackupRecords.Due(t, digest, Rows(p), 1.0) && Rows(p) in ready
  {
    var empty := BackupRecords.Tables(map[], map[]);
    var one := BackupRecords.PutInto(empty, digest(Rows(p)), Rows(p));
    BackupRecords.SortedReadsBack(empty, digest(Rows(p)), Rows(p));
    BackupRecords.StillRebuilt(one, digest(Rows(p)), Rows(p), digest(Rows(q)), Rows(q));
    assert BackupRecords.Rebuilt(t, digest(Rows(p)), Rows(p));
    BackupRecords.ListedIff(t, digest, 1.0, from, ready, Rows(p));
  }

  /** One source backed up, purged, and backed up again at the same place; the second backup is locked.  The first
      plan is listed as ready still, and purging it removes the copy of the locked one, without any fault. */
  method StaleRun(x: Bytes, sha: Bytes -> Digest, digest: Digests, id: string)
    returns (first: Plan, second: Plan, locked: bool, ready: seq<BackupRecords.BackupPlan>, answer: Answer,
             states: Result<seq<State>, Error>)
    ensures digest(Rows(first)) != digest(Rows(second)) ==>
              locked && Rows(first) in ready && answer == Answer(true) && states == Ok([Missing])
  {
    var planner, executor := SetUp(Only(x), {[], ["a"]}, sha, digest);
    first := ComeAndGone(planner, executor, x, id);
    second := BackUpSource(planner, executor, x, 1.0, "n", id);
    var done := executor.store.Lock(digest(Rows(second)));
    locked := BackupRecords.IsLocked(executor.store.State(), digest(Rows(second)));
    ghost var from;
    ready, from := executor.store.RetentionReady(1.0);
    if digest(Rows(first)) != digest(Rows(second)) {
      StillListed(digest, executor.store.State(), first, second, from, ready);
    }
    SourceIsRemovable(first, 0.0, "m", executor.fs.dirs);
    answer, states := PurgeAndVerify(executor, first, second, id);
  }

  method PurgeAndVerify(executor: BackupExecutor, first: Plan, second: Plan, id: string)
    returns (answer: Answer, states: Result<seq<State>, Error>)
    requires executor.fs.Valid() && executor.fs.Sound() && Removable(executor.boundary, first, executor.fs.dirs)
    requires |second.items| == 1 && second.items[0].destination in Places(first)
    modifies executor.fs
    ensures BackupRecords.Due(executor.store.State(), executor.store.digest, Rows(first), 1.0) ==>
              answer == Answer(true) && states == Ok([Missing])
  {
    var removed;
    answer, removed := executor.Purge(first, id, 1.0);
    states := executor.Verify(second);
    if BackupRecords.Due(executor.store.State(), executor.store.digest, Rows(first), 1.0) {
      assert StateOf(executor.fs.sha, executor.fs.files, second.items[0]) == Missing;
      assert states.value == [Missing];
    }
  }
}
