/** Backup, verification and restore over the file system (teldrive_lab/backups.py). */
module Backups {
  import opened Base
  import opened Files
  import opened Retention
  import opened Transfer
  import BackupRecords
  import Safety

  /** A source as given and as resolved. */
  datatype Raw = Raw(text: string, path: Path)

  datatype Item = Item(source: Path, destination: Path, size: nat, sha: Digest)

  datatype Plan = Plan(items: seq<Item>, manifest: Path, createdAt: real, purgeAfter: real)

  function RawText(r: Raw): string { r.text }

  const MANIFESTS := "manifests"

  /** The metadata rows of a plan. */
  function Rows(plan: Plan): BackupRecords.BackupPlan {
    BackupRecords.BackupPlan(
      seq(|plan.items|, k requires 0 <= k < |plan.items| =>
        BackupRecords.BackupItem(Safety.Text(plan.items[k].source), Safety.Text(plan.items[k].destination),
                                 plan.items[k].size, plan.items[k].sha)),
      Safety.Text(plan.manifest), plan.createdAt, plan.purgeAfter)
  }

  /** Nothing of a plan is lost in its rows. */
  lemma RowsTell(plan: Plan, k: nat)
    requires k < |plan.items|
    ensures var p := Rows(plan);
      && |p.items| == |plan.items| && p.manifest == Safety.Text(plan.manifest)
      && p.createdAt == plan.createdAt && p.purgeAfter == plan.purgeAfter
      && p.items[k].source == Safety.Text(plan.items[k].source)
      && p.items[k].destination == Safety.Text(plan.items[k].destination)
      && p.items[k].size == plan.items[k].size && p.items[k].sha == plan.items[k].sha
  {}

  ghost predicate DistinctDestinations(plan: Plan) {
    forall i, j :: 0 <= i < j < |plan.items| ==> plan.items[i].destination != plan.items[j].destination
  }

  /** The layout the planner gives a plan under `root`. */
  ghost predicate LaidOut(plan: Plan, root: Path, stamp: string) {
    && (forall k :: 0 <= k < |plan.items| ==> plan.items[k].destination == root + [Name(plan.items[k].source)])
    && plan.manifest == root + [MANIFESTS, stamp]
  }

  /** The sources are as the plan describes them and the destinations were free when it was made. */
  ghost predicate Current(sha: Bytes -> Digest, files: map<Path, Bytes>, dirs: set<Path>, boundary: seq<Safety.Path>,
                          item: Item)
  {
    && item.source in files && |files[item.source]| == item.size && sha(files[item.source]) == item.sha
    && item.destination !in files && item.destination !in dirs
    && Safety.Untouched(boundary, [item.source, item.destination])
  }

  /** The planner goes through the sources in the order of the paths as given. */
  lemma SourcesByText(sources: seq<Raw>)
    ensures |Sort(sources, RawText)| == |sources| && multiset(Sort(sources, RawText)) == multiset(sources)
    ensures forall i, j :: 0 <= i < j < |sources| ==>
              Leq(Sort(sources, RawText)[i].text, Sort(sources, RawText)[j].text)
  {
    var sorted := Sort(sources, RawText);
    SortSorted(sources, RawText);
    SortKeeps(sources, RawText);
    forall i, j | 0 <= i < j < |sorted| ensures Leq(sorted[i].text, sorted[j].text) {
      assert Leq(RawText(sorted[i]), RawText(sorted[j]));
    }
  }

  class BackupPlanner {
    const fs: FileSystem
    const boundary: seq<Safety.Path>

    constructor (fs: FileSystem, boundary: seq<Safety.Path>)
      ensures this.fs == fs && this.boundary == boundary
    {
      this.fs, this.boundary := fs, boundary;
    }

    /** One round of the planning loop: the first check that fails decides the error, and otherwise it raises
        exactly when an I/O call fails. */
    method PlanItem(source: Path, root: Path) returns (r: Result<Item, Error>)
      requires fs.Valid()
      modifies fs`tick
      ensures fs.Valid() && old(fs.tick) <= fs.tick
      ensures var checked := Check(boundary, source, root, fs.files, fs.dirs);
              if checked.Some? then r == Err(checked.value)
              else if Faulted(fs.fault, old(fs.tick), fs.tick) then r == Err(OsError)
              else r.Ok? && r.value.source == source && r.value.destination == root + [Name(source)]
                   && Current(fs.sha, fs.files, fs.dirs, boundary, r.value)
      ensures source !in fs.files ==> r == Err(ValueError)
      ensures var place := root + [if source == [] then "" else source[|source| - 1]];
              source in fs.files ==>
                if exists top :: top in boundary && (top <= source || top <= place) then r == Err(PermissionError)
                else if place in fs.files || place in fs.dirs then r == Err(FileExistsError)
                else if Faulted(fs.fault, old(fs.tick), fs.tick) then r == Err(OsError)
                else r == Ok(Item(source, place, |fs.files[source]|, fs.sha(fs.files[source])))
    {
      assert forall top :: top in boundary && (top <= source || top <= root + [Name(source)]) ==>
                 !Safety.Untouched(boundary, [source, root + [Name(source)]]) by {
        assert source in [source, root + [Name(source)]] && root + [Name(source)] in [source, root + [Name(source)]];
      }
      if source !in fs.files {
        return Err(ValueError);
      }
      var destination := root + [Name(source)];
      var vetoed := Safety.Vetoed(boundary, Safety.Transfer, [source, destination]);
      if vetoed {
        return Err(PermissionError);
      }
      if destination in fs.files || destination in fs.dirs {
        return Err(FileExistsError);
      }
      var size := fs.Size(source);
      if size.Err? {
        return Err(size.error);
      }
      var digest := fs.HashFile(source);
      if digest.Err? {
        return Err(digest.error);
      }
      r := Ok(Item(source, destination, size.value, digest.value));
    }

    /** It raises what the first source that fails a check raises, or OSError exactly when an I/O call fails. */
    method MakePlan(sources: seq<Raw>, root: Path, policy: Policy, now: real, stamp: string)
      returns (r: Result<Plan, Error>)
      requires fs.Valid()
      modifies fs`tick
      ensures fs.Valid() && old(fs.tick) <= fs.tick
      ensures r.Ok? ==> PlanOf(r.value, sources, root, policy, now, stamp)
                        && AllCurrent(fs.sha, fs.files, fs.dirs, boundary, r.value)
                        && !Faulted(fs.fault, old(fs.tick), fs.tick)
      ensures r.Ok? ==> r.value.manifest == root + ["manifests", stamp]
      ensures r.Err? ==> exists k :: 0 <= k < |sources| && Stops(boundary, sources, k, root, fs.files, fs.dirs, r.error,
                                                                 Faulted(fs.fault, old(fs.tick), fs.tick))
    {
      var ordered := Sort(sources, RawText);
      var items: seq<Item> := [];
      for k := 0 to |ordered|
        invariant fs.Valid() && |items| == k && old(fs.tick) <= fs.tick
        invariant !Faulted(fs.fault, old(fs.tick), fs.tick)
        invariant forall j :: 0 <= j < k ==> Check(boundary, ordered[j].path, root, fs.files, fs.dirs).None?
        invariant forall j :: 0 <= j < k ==>
                    && items[j].source == ordered[j].path && items[j].destination == root + [Name(items[j].source)]
                    && Current(fs.sha, fs.files, fs.dirs, boundary, items[j])
      {
        var item := PlanItem(ordered[k].path, root);
        if item.Err? {
          assert Stops(boundary, sources, k, root, fs.files, fs.dirs, item.error,
                       Faulted(fs.fault, old(fs.tick), fs.tick));
          return Err(item.error);
        }
        items := items + [item.value];
      }
      r := Ok(Plan(items, root + [MANIFESTS, stamp], now, now + EffectiveRetention(policy)));
    }
  }

  /** What `plan` raises for a source, before it looks at the file. */
  ghost function Check(boundary: seq<Safety.Path>, source: Path, root: Path, files: map<Path, Bytes>,
                       dirs: set<Path>): Option<Error>
  {
    var destination := root + [Name(source)];
    if source !in files then Some(ValueError)
    else if !Safety.Untouched(boundary, [source, destination]) then Some(PermissionError)
    else if destination in files || destination in dirs then Some(FileExistsError)
    else None
  }

  /** Planning stops at source number `k`, in the order of the paths as given. */
  ghost predicate Stops(boundary: seq<Safety.Path>, sources: seq<Raw>, k: nat, root: Path, files: map<Path, Bytes>,
                        dirs: set<Path>, error: Error, faulted: bool)
    requires k < |sources|
  {
    var ordered := Sort(sources, RawText);
    var checked := Check(boundary, ordered[k].path, root, files, dirs);
    && (forall j :: 0 <= j < k ==> Check(boundary, ordered[j].path, root, files, dirs).None?)
    && if checked.Some? then error == checked.value else error == OsError && faulted
  }

  /** The plan is laid out for these sources, in the order of the paths as given, under this policy. */
  ghost predicate PlanOf(plan: Plan, sources: seq<Raw>, root: Path, policy: Policy, now: real, stamp: string) {
    && LaidOut(plan, root, stamp) && |plan.items| == |sources|
    && plan.createdAt == now && plan.purgeAfter == now + EffectiveRetention(policy)
    && forall k :: 0 <= k < |sources| ==> plan.items[k].source == Sort(sources, RawText)[k].path
  }

  ghost predicate AllCurrent(sha: Bytes -> Digest, files: map<Path, Bytes>, dirs: set<Path>, boundary: seq<Safety.Path>,
                             plan: Plan)
  {
    forall k :: 0 <= k < |plan.items| ==> Current(sha, files, dirs, boundary, plan.items[k])
  }

  /** The first `n` items are copied, each to its own destination. */
  ghost predicate Copied(sha: Bytes -> Digest, plan: Plan, n: nat, files: map<Path, Bytes>)
    requires n <= |plan.items|
  {
    && (forall k :: 0 <= k < n ==>
          plan.items[k].destination in files && sha(files[plan.items[k].destination]) == plan.items[k].sha)
    && (forall i, j :: 0 <= i < j < n ==> plan.items[i].destination != plan.items[j].destination)
  }

  /** Files are only added, at the destinations of the first `n` items. */
  ghost predicate AddsOnly(plan: Plan, n: nat, before: map<Path, Bytes>, after: map<Path, Bytes>)
    requires n <= |plan.items|
  {
    && (forall p :: p in before ==> p in after && after[p] == before[p])
    && (forall p :: p in after && p !in before ==> exists k :: 0 <= k < n && plan.items[k].destination == p)
  }

  ghost predicate Copying(sha: Bytes -> Digest, plan: Plan, n: nat, before: map<Path, Bytes>, files: map<Path, Bytes>)
    requires n <= |plan.items|
  {
    AddsOnly(plan, n, before, files) && Copied(sha, plan, n, files)
  }

  lemma CopyingStart(sha: Bytes -> Digest, plan: Plan, files: map<Path, Bytes>)
    ensures Copying(sha, plan, 0, files, files)
  {}

  /** The first `n` items are verified and nothing stands in the way of the others: they are current, their
      destinations are distinct places right below `root`, and directories have only been made on the way to `root`. */
  ghost predicate OnTrack(sha: Bytes -> Digest, plan: Plan, n: nat, root: Path, boundary: seq<Safety.Path>,
                          files: map<Path, Bytes>, dirs: set<Path>, dirs0: set<Path>)
    requires n <= |plan.items|
  {
    && CanBeDirectory(files, root) && DistinctDestinations(plan)
    && (forall k :: 0 <= k < |plan.items| ==> plan.items[k].destination == root + [Name(plan.items[k].source)])
    && (forall k :: n <= k < |plan.items| ==> Current(sha, files, dirs, boundary, plan.items[k]))
    && (forall k :: 0 <= k < n ==> StateOf(sha, files, plan.items[k]) == Verified)
    && (forall d :: d in dirs ==> d in dirs0 || d <= root)
  }

  datatype State = Verified | Missing | Corrupt

  function StateOf(sha: Bytes -> Digest, files: map<Path, Bytes>, item: Item): State {
    if item.destination !in files then Missing
    else if |files[item.destination]| == item.size && sha(files[item.destination]) == item.sha then Verified
    else Corrupt
  }

  ghost predicate Intact(sha: Bytes -> Digest, plan: Plan, files: map<Path, Bytes>) {
    forall k :: 0 <= k < |plan.items| ==> StateOf(sha, files, plan.items[k]) == Verified
  }

  /** All files of a backup, the manifest included. */
  function Places(plan: Plan): set<Path> {
    (set k | 0 <= k < |plan.items| :: plan.items[k].destination) + {plan.manifest}
  }

  /** Nothing keeps `purge` from unlinking these: no destination is protected, and no place is a directory. */
  ghost predicate Removable(boundary: seq<Safety.Path>, plan: Plan, dirs: set<Path>) {
    && (forall k :: 0 <= k < |plan.items| ==> Safety.Untouched(boundary, [plan.items[k].destination]))
    && (forall p :: p in Places(plan) ==> p !in dirs)
  }

  /** No file goes, none but the manifest changes, and new ones only appear at the places of the plan. */
  ghost predicate Alone(plan: Plan, before: map<Path, Bytes>, files: map<Path, Bytes>) {
    && (forall p :: p in before ==> p in files)
    && (forall p :: p in before && p != plan.manifest ==> files[p] == before[p])
    && (forall p :: p in files && p !in before ==> p in Places(plan))
  }

  lemma AddsAlone(plan: Plan, before: map<Path, Bytes>, files: map<Path, Bytes>)
    requires AddsOnly(plan, |plan.items|, before, files)
    ensures Alone(plan, before, files)
  {}

  lemma AloneStill(plan: Plan, before: map<Path, Bytes>, files: map<Path, Bytes>, files': map<Path, Bytes>)
    requires Alone(plan, before, files) && (plan.manifest in files ==> plan.manifest in files')
    requires forall p :: p != plan.manifest ==> (p in files' <==> p in files) && (p in files' ==> files'[p] == files[p])
    ensures Alone(plan, before, files')
  {}

  /** The plan is laid out and on track, and the manifest has a place. */
  ghost predicate Prepared(sha: Bytes -> Digest, plan: Plan, root: Path, stamp: string, boundary: seq<Safety.Path>,
                           files: map<Path, Bytes>, dirs: set<Path>)
  {
    && LaidOut(plan, root, stamp) && plan.manifest !in dirs && root + [MANIFESTS] !in files
    && OnTrack(sha, plan, 0, root, boundary, files, dirs, dirs)
  }

  /** All copies are there, and `apply` succeeds exactly when none of them took the name of the manifest directory. */
  ghost predicate Completed(sha: Bytes -> Digest, plan: Plan, root: Path, a: Answer, files: map<Path, Bytes>,
                            dirs0: set<Path>, dirs: set<Path>)
  {
    && (a == Answer(true) <==> forall k :: 0 <= k < |plan.items| ==> Name(plan.items[k].source) != MANIFESTS)
    && (a != Answer(true) ==> a == Threw(OsError))
    && Intact(sha, plan, files)
    && (forall d :: d in dirs ==> d in dirs0 || d <= root + [MANIFESTS])
  }

  class BackupExecutor {
    const fs: FileSystem
    const boundary: seq<Safety.Path>
    const store: BackupRecords.BackupStore

    constructor (fs: FileSystem, boundary: seq<Safety.Path>, store: BackupRecords.BackupStore)
      ensures this.fs == fs && this.boundary == boundary && this.store == store
    {
      this.fs, this.boundary, this.store := fs, boundary, store;
    }

    /** One authorised, verified transfer whose result must carry the expected digest. */
    method Carry(source: Path, destination: Path, sha: Digest, id: string) returns (a: Answer)
      requires fs.Valid()
      modifies fs
      ensures fs.Valid() && old(fs.dirs) <= fs.dirs && old(fs.tick) <= fs.tick
      ensures forall d :: d in fs.dirs ==> d in old(fs.dirs) || d <= Parent(destination)
      ensures a == Answer(true) ==> source in old(fs.files) && destination !in old(fs.files) && destination in fs.files
                                    && fs.files == old(fs.files)[destination := fs.files[destination]]
                                    && fs.sha(fs.files[destination]) == sha
      ensures forall p :: p in old(fs.files) ==> p in fs.files && fs.files[p] == old(fs.files)[p]
      ensures forall p :: p in fs.files && p !in old(fs.files) ==> p == destination
      ensures old(fs.Sound()) && source in old(fs.files) && fs.sha(old(fs.files)[source]) == sha
              && destination !in old(fs.files) && destination !in old(fs.dirs)
              && CanBeDirectory(old(fs.files), Parent(destination)) && Safety.Untouched(boundary, [source, destination])
              ==> a == Answer(true)
      ensures old(fs.Sound()) && a == Answer(true) ==> fs.files[destination] == old(fs.files)[source]
    {
      var receipt := Safety.ForPaths(Safety.Transfer, [source, destination], id);
      Safety.IssuedReceiptScope(boundary, Safety.Transfer, [source, destination], [source, destination], id);
      var r := Managed(fs, boundary, Spec(source, destination, false), Some(receipt.value));
      if r.Raised? {
        return Threw(r.error);
      }
      a := Answer(r.result.success && r.result.verified && r.result.destinationSha == Some(sha));
    }

    /** One round of the copying loop of `apply`. */
    method CopyItem(plan: Plan, n: nat, id: string, ghost root: Path, ghost smooth: bool,
                    ghost before: map<Path, Bytes>, ghost dirs0: set<Path>)
      returns (a: Answer)
      requires fs.Valid() && n < |plan.items|
      requires Copying(fs.sha, plan, n, before, fs.files)
      requires smooth ==> fs.Sound() && OnTrack(fs.sha, plan, n, root, boundary, fs.files, fs.dirs, dirs0)
      modifies fs
      ensures fs.Valid() && AddsOnly(plan, |plan.items|, before, fs.files) && old(fs.tick) <= fs.tick
      ensures a == Answer(true) ==> Copying(fs.sha, plan, n + 1, before, fs.files)
      ensures smooth ==> a == Answer(true) && OnTrack(fs.sha, plan, n + 1, root, boundary, fs.files, fs.dirs, dirs0)
    {
      var item := plan.items[n];
      ghost var files, dirs := fs.files, fs.dirs;
      if smooth {
        OnTrackNow(fs.sha, plan, n, root, boundary, files, dirs, dirs0);
      }
      a := Carry(item.source, item.destination, item.sha, id);
      AddsOnlyNext(plan, n, before, files, fs.files);
      if a == Answer(true) {
        CopiedNext(fs.sha, plan, n, files, fs.files);
      }
      if smooth {
        OnTrackNext(fs.sha, plan, n, root, boundary, files, dirs, fs.files, fs.dirs, dirs0);
      }
    }

    /** The copying loop of `apply`. */
    method CopyItems(plan: Plan, id: string, ghost root: Path) returns (a: Answer, changed: seq<Path>)
      requires fs.Valid()
      modifies fs
      ensures fs.Valid() && AddsOnly(plan, |plan.items|, old(fs.files), fs.files) && old(fs.tick) <= fs.tick
      ensures a == Answer(true) ==> Copied(fs.sha, plan, |plan.items|, fs.files)
                                    && |changed| == |plan.items|
                                    && forall k :: 0 <= k < |changed| ==> changed[k] == plan.items[k].destination
      ensures old(fs.Sound()) && OnTrack(fs.sha, plan, 0, root, boundary, old(fs.files), old(fs.dirs), old(fs.dirs))
              ==> a == Answer(true) && OnTrack(fs.sha, plan, |plan.items|, root, boundary, fs.files, fs.dirs,
                                               old(fs.dirs))
    {
      changed := [];
      ghost var smooth := fs.Sound() && OnTrack(fs.sha, plan, 0, root, boundary, fs.files, fs.dirs, fs.dirs);
      CopyingStart(fs.sha, plan, fs.files);
      for n := 0 to |plan.items|
        invariant fs.Valid() && old(fs.tick) <= fs.tick
        invariant |changed| == n && forall k :: 0 <= k < n ==> changed[k] == plan.items[k].destination
        invariant Copying(fs.sha, plan, n, old(fs.files), fs.files)
        invariant smooth ==> OnTrack(fs.sha, plan, n, root, boundary, fs.files, fs.dirs, old(fs.dirs))
      {
        a := CopyItem(plan, n, id, root, smooth, old(fs.files), old(fs.dirs));
        if a != Answer(true) {
          return;
        }
        changed := changed + [plan.items[n].destination];
      }
      a := Answer(true);
    }

    method Apply(plan: Plan, id: string, ghost root: Path, ghost stamp: string) returns (a: Answer, changed: seq<Path>)
      requires fs.Valid()
      modifies fs, store
      ensures fs.Valid() && old(fs.tick) <= fs.tick
      ensures Alone(plan, old(fs.files), fs.files)
      ensures if a == Answer(true)
              then DistinctDestinations(plan)
                   && store.State() == BackupRecords.PutInto(old(store.State()), store.digest(Rows(plan)), Rows(plan))
              else store.State() == old(store.State())
      ensures old(store.Valid()) ==> store.Valid()
      ensures a == Answer(true) && LaidOut(plan, root, stamp) ==> Copied(fs.sha, plan, |plan.items|, fs.files)
      ensures old(fs.Sound()) && Prepared(fs.sha, plan, root, stamp, boundary, old(fs.files), old(fs.dirs)) ==>
                Completed(fs.sha, plan, root, a, fs.files, old(fs.dirs), fs.dirs)
    {
      a, changed := CopyAndWrite(plan, id, root, stamp);
      if a == Answer(true) {
        store.Put(Rows(plan));
      }
    }

    /** `apply` up to the record it keeps. */
    method CopyAndWrite(plan: Plan, id: string, ghost root: Path, ghost stamp: string)
      returns (a: Answer, changed: seq<Path>)
      requires fs.Valid()
      modifies fs
      ensures fs.Valid() && old(fs.tick) <= fs.tick
      ensures Alone(plan, old(fs.files), fs.files)
      ensures a == Answer(true) ==> DistinctDestinations(plan)
      ensures a == Answer(true) && LaidOut(plan, root, stamp) ==> Copied(fs.sha, plan, |plan.items|, fs.files)
      ensures old(fs.Sound()) && Prepared(fs.sha, plan, root, stamp, boundary, old(fs.files), old(fs.dirs)) ==>
                Completed(fs.sha, plan, root, a, fs.files, old(fs.dirs), fs.dirs)
    {
      ghost var smooth := fs.Sound() && Prepared(fs.sha, plan, root, stamp, boundary, fs.files, fs.dirs);
      a, changed := CopyItems(plan, id, root);
      ghost var copied, dirs := fs.files, fs.dirs;
      AddsAlone(plan, old(fs.files), copied);
      if a != Answer(true) {
        return;
      }
      a := WriteManifest(plan);
      AloneStill(plan, old(fs.files), copied, fs.files);
      if smooth {
        ApplyCompletes(fs.sha, plan, root, stamp, boundary, old(fs.files), old(fs.dirs), copied, dirs,
                       fs.files, fs.dirs, a);
      }
      if LaidOut(plan, root, stamp) {
        ManifestApart(fs.sha, plan, root, stamp, copied, fs.files);
      }
    }

    /** Make the manifest's directory and write it. */
    method WriteManifest(plan: Plan) returns (a: Answer)
      requires fs.Valid()
      modifies fs
      ensures fs.Valid() && old(fs.tick) <= fs.tick && (a == Answer(true) || a == Threw(OsError))
      ensures forall p :: p != plan.manifest ==>
                (p in fs.files <==> p in old(fs.files)) && (p in fs.files ==> fs.files[p] == old(fs.files)[p])
      ensures plan.manifest in old(fs.files) ==> plan.manifest in fs.files
      ensures forall d :: d in fs.dirs ==> d in old(fs.dirs) || d <= Parent(plan.manifest)
      ensures old(fs.Sound()) && plan.manifest != [] && plan.manifest !in old(fs.dirs) ==>
                (a == Answer(true) <==> CanBeDirectory(old(fs.files), Parent(plan.manifest)))
    {
      var made := fs.MakeDirs(Parent(plan.manifest));
      if made.Err? {
        return Threw(made.error);
      }
      var written := fs.WriteText(plan.manifest, []);
      if written.Err? {
        return Threw(written.error);
      }
      a := Answer(true);
    }

    method Verify(plan: Plan) returns (r: Result<seq<State>, Error>)
      requires fs.Valid()
      modifies fs`tick
      ensures fs.Valid() && old(fs.tick) <= fs.tick
      ensures r.Err? ==> r.error == OsError
      ensures r.Err? <==> Faulted(fs.fault, old(fs.tick), fs.tick)
      ensures r.Ok? ==> |r.value| == |plan.items|
                        && forall k :: 0 <= k < |plan.items| ==> r.value[k] == StateOf(fs.sha, fs.files, plan.items[k])
      ensures r.Ok? ==> forall k :: 0 <= k < |plan.items| ==>
        var item := plan.items[k];
        var there := item.destination in fs.files;
        && (r.value[k] == Missing <==> !there)
        && (r.value[k] == Verified <==> there && |fs.files[item.destination]| == item.size
                                        && fs.sha(fs.files[item.destination]) == item.sha)
        && (r.value[k] == Corrupt <==> there && (|fs.files[item.destination]| != item.size
                                                 || fs.sha(fs.files[item.destination]) != item.sha))
      ensures r.Ok? ==> (Intact(fs.sha, plan, fs.files) <==> forall k :: 0 <= k < |r.value| ==> r.value[k] == Verified)
    {
      var states: seq<State> := [];
      for n := 0 to |plan.items|
        invariant fs.Valid() && |states| == n && old(fs.tick) <= fs.tick
        invariant !Faulted(fs.fault, old(fs.tick), fs.tick)
        invariant forall k :: 0 <= k < n ==> states[k] == StateOf(fs.sha, fs.files, plan.items[k])
      {
        var item := plan.items[n];
        if item.destination !in fs.files {
          states := states + [Missing];
        } else {
          var size := fs.Size(item.destination);
          if size.Err? {
            return Err(size.error);
          }
          var actual := fs.HashFile(item.destination);
          if actual.Err? {
            return Err(actual.error);
          }
          states := states + [if size.value == item.size && actual.value == item.sha then Verified else Corrupt];
        }
      }
      r := Ok(states);
    }

    /** Restoring never overwrites, and what it brings back has the recorded digest.  Without faults, from
        intact backups, into free and unprotected places, it succeeds. */
    method Restore(plan: Plan, root: Path, id: string) returns (a: Answer, restored: seq<Path>)
      requires fs.Valid()
      modifies fs
      ensures fs.Valid() && old(fs.tick) <= fs.tick
      ensures forall p :: p in old(fs.files) ==> p in fs.files && fs.files[p] == old(fs.files)[p]
      ensures a == Answer(true) ==> forall k :: 0 <= k < |plan.items| ==>
                var back := root + [Name(plan.items[k].source)];
                && back !in old(fs.files) && back in fs.files && back in restored
                && fs.sha(fs.files[back]) == plan.items[k].sha
      ensures old(fs.Sound()) && Intact(fs.sha, plan, old(fs.files))
              && Receptive(plan, 0, root, boundary, old(fs.files), old(fs.dirs))
              ==> a == Answer(true)
                  && forall k :: 0 <= k < |plan.items| ==>
                       root + [Name(plan.items[k].source)] in fs.files
                       && |fs.files[root + [Name(plan.items[k].source)]]| == plan.items[k].size
    {
      restored := [];
      ghost var smooth := fs.Sound() && Intact(fs.sha, plan, fs.files)
                          && Receptive(plan, 0, root, boundary, fs.files, fs.dirs);
      for n := 0 to |plan.items|
        invariant fs.Valid() && old(fs.tick) <= fs.tick
        invariant forall p :: p in old(fs.files) ==> p in fs.files && fs.files[p] == old(fs.files)[p]
        invariant Back(fs.sha, plan, n, root, old(fs.files), fs.files, restored)
        invariant smooth ==> Returning(fs.sha, plan, n, root, boundary, fs.files, fs.dirs)
      {
        a := RestoreItem(plan, n, root, id, restored, old(fs.files), smooth);
        if a != Answer(true) {
          return;
        }
        restored := restored + [root + [Name(plan.items[n].source)]];
      }
      a := Answer(true);
    }

    /** One round of the loop of `restore`. */
    method RestoreItem(plan: Plan, n: nat, root: Path, id: string, ghost restored: seq<Path>,
                       ghost before: map<Path, Bytes>, ghost smooth: bool)
      returns (a: Answer)
      requires fs.Valid() && n < |plan.items| && Back(fs.sha, plan, n, root, before, fs.files, restored)
      requires forall p :: p in before ==> p in fs.files && fs.files[p] == before[p]
      requires smooth ==> fs.Sound() && Returning(fs.sha, plan, n, root, boundary, fs.files, fs.dirs)
      modifies fs
      ensures fs.Valid() && old(fs.tick) <= fs.tick
      ensures forall p :: p in before ==> p in fs.files && fs.files[p] == before[p]
      ensures a == Answer(true) ==>
                Back(fs.sha, plan, n + 1, root, before, fs.files, restored + [root + [Name(plan.items[n].source)]])
      ensures smooth ==> a == Answer(true) && Returning(fs.sha, plan, n + 1, root, boundary, fs.files, fs.dirs)
    {
      var item := plan.items[n];
      var destination := root + [Name(item.source)];
      ghost var files, dirs := fs.files, fs.dirs;
      assert smooth ==> StateOf(fs.sha, fs.files, item) == Verified;
      if destination in fs.files || destination in fs.dirs {
        return Answer(false);
      }
      if item.destination !in fs.files {
        return Answer(false);
      }
      var digest := fs.HashFile(item.destination);
      if digest.Err? {
        return Threw(digest.error);
      }
      if digest.value != item.sha {
        return Answer(false);
      }
      assert Parent(destination) == root;
      a := Carry(item.destination, destination, item.sha, id);
      if a == Answer(true) {
        BackNext(fs.sha, plan, n, root, before, files, fs.files, restored);
        if smooth {
          ReturningNext(fs.sha, plan, n, root, boundary, files, dirs, fs.files, fs.dirs);
        }
      }
    }

    /** Unlinks what is there of the destinations, and then the manifest, of a plan that is due and whose own digest
        is not locked.  It does not ask who else needs these files, and leaves the records as they are. */
    method Purge(plan: Plan, id: string, clock: real) returns (a: Answer, removed: seq<Path>)
      requires fs.Valid()
      modifies fs
      ensures fs.Valid() && fs.dirs == old(fs.dirs) && old(fs.tick) <= fs.tick
      ensures if BackupRecords.Due(store.State(), store.digest, Rows(plan), clock)
              then Purged(plan, removed, old(fs.files), fs.files)
              else a == Answer(false) && removed == [] && fs.files == old(fs.files)
      ensures a == Answer(true) ==> forall p :: p in Places(plan) ==> p !in fs.files
      ensures old(fs.Sound()) && BackupRecords.Due(store.State(), store.digest, Rows(plan), clock) ==>
                (a == Answer(true) <==> Removable(boundary, plan, fs.dirs))
    {
      removed := [];
      if BackupRecords.IsLocked(store.State(), store.digest(Rows(plan))) || plan.purgeAfter > clock {
        return Answer(false), removed;
      }
      for n := 0 to |plan.items|
        invariant fs.Valid() && fs.dirs == old(fs.dirs) && old(fs.tick) <= fs.tick
        invariant Removed(plan, n, removed, old(fs.files), fs.files)
        invariant old(fs.Sound()) ==> Passed(boundary, plan, n, fs.dirs)
      {
        var path := plan.items[n].destination;
        ghost var files := fs.files;
        var there := path in fs.files || path in fs.dirs;
        a := PurgeFile(path, there, id);
        if a != Answer(true) {
          RemovedIsPurged(plan, n, removed, old(fs.files), files);
          assert path in Places(plan);
          return;
        }
        RemovedNext(plan, n, removed, old(fs.files), files);
        if there {
          removed := removed + [path];
        }
      }
      a := Answer(true);
      RemovedIsPurged(plan, |plan.items|, removed, old(fs.files), fs.files);
      if plan.manifest in fs.files || plan.manifest in fs.dirs {
        var unlinked := fs.Unlink(plan.manifest);
        if unlinked.Err? {
          return Threw(unlinked.error), removed;
        }
      }
    }

    /** One destination: authorise the deletion, then unlink what is there. */
    method PurgeFile(path: Path, there: bool, id: string) returns (a: Answer)
      requires fs.Valid() && there == (path in fs.files || path in fs.dirs)
      modifies fs
      ensures fs.Valid() && fs.dirs == old(fs.dirs) && old(fs.tick) <= fs.tick
      ensures fs.files == if a == Answer(true) then old(fs.files) - {path} else old(fs.files)
      ensures a == Answer(false) <==> !Safety.Untouched(boundary, [path])
      ensures a == Answer(true) ==> path !in fs.dirs
      ensures old(fs.Sound()) && Safety.Untouched(boundary, [path]) ==> (a == Answer(true) <==> path !in fs.dirs)
    {
      var receipt := Safety.ForPaths(Safety.Delete, [path], id);
      var decision := Safety.Authorize(boundary, Safety.Delete, [path], false, Some(receipt.value));
      Safety.IssuedReceiptScope(boundary, Safety.Delete, [path], [path], id);
      if !decision.allowed {
        return Answer(false);
      }
      if there {
        var unlinked := fs.Unlink(path);
        if unlinked.Err? {
          return Threw(unlinked.error);
        }
      }
      a := Answer(true);
    }
  }

  /** Of the files there were, only some of the first `n` destinations have gone, and `removed` lists these. */
  ghost predicate Removed(plan: Plan, n: nat, removed: seq<Path>, before: map<Path, Bytes>, files: map<Path, Bytes>)
    requires n <= |plan.items|
  {
    && files == before - (set p | p in removed)
    && (forall p :: p in removed ==> p in before && exists k :: 0 <= k < n && plan.items[k].destination == p)
    && (forall k :: 0 <= k < n ==> plan.items[k].destination !in files)
  }

  lemma RemovedNext(plan: Plan, n: nat, removed: seq<Path>, before: map<Path, Bytes>, files: map<Path, Bytes>)
    requires n < |plan.items| && Removed(plan, n, removed, before, files)
    ensures var path := plan.items[n].destination;
            Removed(plan, n + 1, if path in files then removed + [path] else removed, before, files - {path})
  {
    var path := plan.items[n].destination;
    if path in files {
      assert (set p | p in removed + [path]) == (set p | p in removed) + {path};
    } else {
      assert files - {path} == files;
    }
  }

  /** Only files of the plan have gone, and `removed` lists them all but the manifest. */
  ghost predicate Purged(plan: Plan, removed: seq<Path>, before: map<Path, Bytes>, files: map<Path, Bytes>) {
    && (forall p :: p in files ==> p in before && files[p] == before[p])
    && (forall p :: p in before && p !in files ==> p in removed || p == plan.manifest)
    && (forall p :: p in removed ==> p in before && p !in files && p in Places(plan))
  }

  lemma RemovedIsPurged(plan: Plan, n: nat, removed: seq<Path>, before: map<Path, Bytes>, files: map<Path, Bytes>)
    requires n <= |plan.items| && Removed(plan, n, removed, before, files)
    ensures Purged(plan, removed, before, files) && Purged(plan, removed, before, files - {plan.manifest})
  {}

  /** The first `n` destinations can be unlinked. */
  ghost predicate Passed(boundary: seq<Safety.Path>, plan: Plan, n: nat, dirs: set<Path>)
    requires n <= |plan.items|
  {
    forall k :: 0 <= k < n ==>
      Safety.Untouched(boundary, [plan.items[k].destination]) && plan.items[k].destination !in dirs
  }

  ghost predicate Back(sha: Bytes -> Digest, plan: Plan, n: nat, root: Path, before: map<Path, Bytes>,
                       files: map<Path, Bytes>, restored: seq<Path>)
    requires n <= |plan.items|
  {
    forall k :: 0 <= k < n ==>
      var back := root + [Name(plan.items[k].source)];
      back !in before && back in files && back in restored && sha(files[back]) == plan.items[k].sha
  }

  lemma BackNext(sha: Bytes -> Digest, plan: Plan, n: nat, root: Path, before: map<Path, Bytes>,
                 files: map<Path, Bytes>, files': map<Path, Bytes>, restored: seq<Path>)
    requires n < |plan.items| && Back(sha, plan, n, root, before, files, restored)
    requires forall p :: p in before ==> p in files
    requires forall p :: p in files ==> p in files' && files'[p] == files[p]
    requires var back := root + [Name(plan.items[n].source)];
             back !in files && back in files' && sha(files'[back]) == plan.items[n].sha
    ensures Back(sha, plan, n + 1, root, before, files', restored + [root + [Name(plan.items[n].source)]])
  {}

  /** The restore root can take the items from `n` on. */
  ghost predicate Receptive(plan: Plan, n: nat, root: Path, boundary: seq<Safety.Path>, files: map<Path, Bytes>,
                            dirs: set<Path>)
    requires n <= |plan.items|
  {
    && CanBeDirectory(files, root)
    && (forall i, j :: 0 <= i < j < |plan.items| ==> Name(plan.items[i].source) != Name(plan.items[j].source))
    && (forall k :: n <= k < |plan.items| ==>
          var back := root + [Name(plan.items[k].source)];
          back !in files && back !in dirs && Safety.Untouched(boundary, [plan.items[k].destination, back]))
  }

  /** The first `n` items are back with their sizes, and nothing stands in the way of the others. */
  ghost predicate Returning(sha: Bytes -> Digest, plan: Plan, n: nat, root: Path, boundary: seq<Safety.Path>,
                            files: map<Path, Bytes>, dirs: set<Path>)
    requires n <= |plan.items|
  {
    && Intact(sha, plan, files) && Receptive(plan, n, root, boundary, files, dirs)
    && forall k :: 0 <= k < n ==>
         var back := root + [Name(plan.items[k].source)];
         back in files && |files[back]| == plan.items[k].size
  }

  lemma ReturningNext(sha: Bytes -> Digest, plan: Plan, n: nat, root: Path, boundary: seq<Safety.Path>,
                      files: map<Path, Bytes>, dirs: set<Path>, files': map<Path, Bytes>, dirs': set<Path>)
    requires n < |plan.items| && Returning(sha, plan, n, root, boundary, files, dirs)
    requires plan.items[n].destination in files
    requires files' == files[root + [Name(plan.items[n].source)] := files[plan.items[n].destination]]
    requires forall d :: d in dirs' ==> d in dirs || d <= root
    ensures Returning(sha, plan, n + 1, root, boundary, files', dirs')
  {
    forall k | n + 1 <= k < |plan.items|
      ensures root + [Name(plan.items[k].source)] !in files' && root + [Name(plan.items[k].source)] !in dirs'
    {
      assert Name(plan.items[k].source) != Name(plan.items[n].source);
      assert (root + [Name(plan.items[k].source)])[|root|] != (root + [Name(plan.items[n].source)])[|root|];
    }
    forall k | 0 <= k < |plan.items| ensures StateOf(sha, files', plan.items[k]) == Verified {
      assert StateOf(sha, files, plan.items[k]) == Verified;
    }
    assert StateOf(sha, files, plan.items[n]) == Verified;
  }

  lemma AddsOnlyNext(plan: Plan, n: nat, a: map<Path, Bytes>, b: map<Path, Bytes>, c: map<Path, Bytes>)
    requires n < |plan.items| && AddsOnly(plan, n, a, b)
    requires forall p :: p in b ==> p in c && c[p] == b[p]
    requires forall p :: p in c && p !in b ==> p == plan.items[n].destination
    ensures AddsOnly(plan, n + 1, a, c)
    ensures AddsOnly(plan, |plan.items|, a, c)
  {}

  lemma CopiedNext(sha: Bytes -> Digest, plan: Plan, n: nat, files: map<Path, Bytes>, files': map<Path, Bytes>)
    requires n < |plan.items| && Copied(sha, plan, n, files)
    requires var d := plan.items[n].destination;
             d !in files && d in files' && files' == files[d := files'[d]] && sha(files'[d]) == plan.items[n].sha
    ensures Copied(sha, plan, n + 1, files')
  {}

  lemma OnTrackNow(sha: Bytes -> Digest, plan: Plan, n: nat, root: Path, boundary: seq<Safety.Path>,
                   files: map<Path, Bytes>, dirs: set<Path>, dirs0: set<Path>)
    requires n < |plan.items| && OnTrack(sha, plan, n, root, boundary, files, dirs, dirs0)
    ensures var item := plan.items[n];
      && item.source in files && sha(files[item.source]) == item.sha
      && item.destination !in files && item.destination !in dirs
      && CanBeDirectory(files, Parent(item.destination))
      && Safety.Untouched(boundary, [item.source, item.destination])
  {
    assert Parent(plan.items[n].destination) == root;
    assert Current(sha, files, dirs, boundary, plan.items[n]);
  }

  lemma OnTrackNext(sha: Bytes -> Digest, plan: Plan, n: nat, root: Path, boundary: seq<Safety.Path>,
                    files: map<Path, Bytes>, dirs: set<Path>, files': map<Path, Bytes>, dirs': set<Path>,
                    dirs0: set<Path>)
    requires n < |plan.items| && OnTrack(sha, plan, n, root, boundary, files, dirs, dirs0)
    requires plan.items[n].source in files && files' == files[plan.items[n].destination := files[plan.items[n].source]]
    requires forall d :: d in dirs' ==> d in dirs || d <= Parent(plan.items[n].destination)
    ensures OnTrack(sha, plan, n + 1, root, boundary, files', dirs', dirs0)
  {
    assert Parent(plan.items[n].destination) == root;
    forall k | n + 1 <= k < |plan.items| ensures Current(sha, files', dirs', boundary, plan.items[k]) {
      assert plan.items[k].destination != plan.items[n].destination;
      assert Current(sha, files, dirs, boundary, plan.items[k]);
      assert Current(sha, files, dirs, boundary, plan.items[n]);
      assert plan.items[k].source != plan.items[n].destination;
    }
    assert Current(sha, files, dirs, boundary, plan.items[n]);
    forall k | 0 <= k < n ensures StateOf(sha, files', plan.items[k]) == Verified {
      assert StateOf(sha, files, plan.items[k]) == Verified;
      assert plan.items[k].destination != plan.items[n].destination;
    }
  }

  lemma PrefixOfChild(root: Path, name: string, q: Path)
    ensures q <= root + [name] <==> q <= root || q == root + [name]
  {
    if q <= root + [name] && |q| <= |root| {
      assert q == (root + [name])[..|q|] == root[..|q|];
    }
    if q <= root {
      assert q == root[..|q|] == (root + [name])[..|q|];
    }
  }

  /** After the copies, `<root>/manifests` can be made a directory unless one of them took its name. */
  lemma ManifestDirectory(plan: Plan, root: Path, stamp: string, before: map<Path, Bytes>, files: map<Path, Bytes>)
    requires LaidOut(plan, root, stamp) && AddsOnly(plan, |plan.items|, before, files)
    requires CanBeDirectory(files, root) && root + [MANIFESTS] !in before
    requires forall k :: 0 <= k < |plan.items| ==> plan.items[k].destination in files
    ensures Parent(plan.manifest) == root + [MANIFESTS]
    ensures CanBeDirectory(files, root + [MANIFESTS])
       <==> forall k :: 0 <= k < |plan.items| ==> Name(plan.items[k].source) != MANIFESTS
  {
    var parent := root + [MANIFESTS];
    assert Parent(plan.manifest) == parent;
    forall q | q in files ensures q <= parent <==> q <= root || q == parent {
      PrefixOfChild(root, MANIFESTS, q);
    }
    assert CanBeDirectory(files, parent) <==> parent !in files;
    forall k | 0 <= k < |plan.items|
      ensures plan.items[k].destination == parent <==> Name(plan.items[k].source) == MANIFESTS
    {
      assert plan.items[k].destination[|root|] == Name(plan.items[k].source) && parent[|root|] == MANIFESTS;
    }
  }

  lemma ManifestIsFree(plan: Plan, root: Path, stamp: string, dirs0: set<Path>, dirs: set<Path>)
    requires LaidOut(plan, root, stamp) && plan.manifest !in dirs0 && forall d :: d in dirs ==> d in dirs0 || d <= root
    ensures plan.manifest != [] && plan.manifest !in dirs
  {}

  /** Writing the manifest touches no backup file. */
  lemma ManifestApart(sha: Bytes -> Digest, plan: Plan, root: Path, stamp: string, files: map<Path, Bytes>,
                      files': map<Path, Bytes>)
    requires LaidOut(plan, root, stamp)
    requires forall p :: p != plan.manifest ==> (p in files' <==> p in files) && (p in files' ==> files'[p] == files[p])
    ensures Copied(sha, plan, |plan.items|, files) ==> Copied(sha, plan, |plan.items|, files')
    ensures Intact(sha, plan, files) ==> Intact(sha, plan, files')
  {
    forall k | 0 <= k < |plan.items| ensures plan.items[k].destination != plan.manifest {
      assert |plan.items[k].destination| != |plan.manifest|;
    }
    if Intact(sha, plan, files) {
      forall k | 0 <= k < |plan.items| ensures StateOf(sha, files', plan.items[k]) == Verified {
        assert StateOf(sha, files, plan.items[k]) == Verified;
      }
    }
  }

  lemma ApplyCompletes(sha: Bytes -> Digest, plan: Plan, root: Path, stamp: string, boundary: seq<Safety.Path>,
                       files0: map<Path, Bytes>, dirs0: set<Path>, copied: map<Path, Bytes>, dirs1: set<Path>,
                       files: map<Path, Bytes>, dirs: set<Path>, a: Answer)
    requires Prepared(sha, plan, root, stamp, boundary, files0, dirs0) && AddsOnly(plan, |plan.items|, files0, copied)
    requires OnTrack(sha, plan, |plan.items|, root, boundary, copied, dirs1, dirs0)
    requires forall p :: p != plan.manifest ==> (p in files <==> p in copied) && (p in files ==> files[p] == copied[p])
    requires forall d :: d in dirs ==> d in dirs1 || d <= Parent(plan.manifest)
    requires plan.manifest != [] && plan.manifest !in dirs1 ==>
               (a == Answer(true) <==> CanBeDirectory(copied, Parent(plan.manifest)))
    requires a == Answer(true) || a == Threw(OsError)
    ensures Completed(sha, plan, root, a, files, dirs0, dirs)
  {
    forall k | 0 <= k < |plan.items| ensures plan.items[k].destination in copied {
      assert StateOf(sha, copied, plan.items[k]) == Verified;
    }
    ManifestDirectory(plan, root, stamp, files0, copied);
    ManifestIsFree(plan, root, stamp, dirs0, dirs1);
    ManifestApart(sha, plan, root, stamp, copied, files);
    forall d | d in dirs && d !in dirs0 ensures d <= root + [MANIFESTS] {
      PrefixOfChild(root, MANIFESTS, d);
    }
  }

  // ---------- the round trip ----------

  /** Two byte strings of different lengths with one digest. */
  predicate Collide(sha: Bytes -> Digest, a: Bytes, b: Bytes) { |a| != |b| && sha(a) == sha(b) }

  /** Copies with the recorded digests are VERIFIED for `verify` and `reconcile`, and stay so until one of those
      very files is altered; an item is called CORRUPT only where its source, as it was planned, and its copy
      collide. */
  lemma AppliedIsIntact(sha: Bytes -> Digest, plan: Plan, planned: map<Path, Bytes>, files: map<Path, Bytes>,
                        later: map<Path, Bytes>)
    requires forall k :: 0 <= k < |plan.items| ==>
               var source := plan.items[k].source;
               source in planned && |planned[source]| == plan.items[k].size && sha(planned[source]) == plan.items[k].sha
    requires Copied(sha, plan, |plan.items|, files)
    requires forall k :: 0 <= k < |plan.items| ==>
               plan.items[k].destination in later
               && later[plan.items[k].destination] == files[plan.items[k].destination]
    ensures DistinctDestinations(plan)
    ensures forall k :: 0 <= k < |plan.items| ==>
              var copied := later[plan.items[k].destination];
              StateOf(sha, later, plan.items[k]) == if |copied| == plan.items[k].size then Verified else Corrupt
    ensures forall k :: 0 <= k < |plan.items| ==>
              StateOf(sha, later, plan.items[k]) == Verified
              || Collide(sha, planned[plan.items[k].source], later[plan.items[k].destination])
  {}

  /** Distinct destinations under one root mean distinct names, so an applied planner-made plan can be restored
      into any unprotected root that holds none of the names. */
  lemma AppliedIsRestorable(plan: Plan, root: Path, stamp: string, restoreRoot: Path, boundary: seq<Safety.Path>,
                            files: map<Path, Bytes>, dirs: set<Path>)
    requires LaidOut(plan, root, stamp) && DistinctDestinations(plan) && CanBeDirectory(files, restoreRoot)
    requires forall k :: 0 <= k < |plan.items| ==>
               var back := restoreRoot + [Name(plan.items[k].source)];
               back !in files && back !in dirs && Safety.Untouched(boundary, [plan.items[k].destination, back])
    ensures Receptive(plan, 0, restoreRoot, boundary, files, dirs)
  {
    forall i, j | 0 <= i < j < |plan.items| ensures Name(plan.items[i].source) != Name(plan.items[j].source) {
      assert plan.items[i].destination != plan.items[j].destination;
    }
  }

  /** Two sources with one name cannot both be backed up: `apply` then never answers true. */
  lemma SameNameSameDestination(plan: Plan, root: Path, stamp: string)
    requires LaidOut(plan, root, stamp)
    ensures DistinctDestinations(plan)
       <==> forall i, j :: 0 <= i < j < |plan.items| ==> Name(plan.items[i].source) != Name(plan.items[j].source)
  {
    forall i, j | 0 <= i < j < |plan.items|
      ensures plan.items[i].destination == plan.items[j].destination
              <==> Name(plan.items[i].source) == Name(plan.items[j].source)
    {
      if plan.items[i].destination == plan.items[j].destination {
        assert plan.items[i].destination[|root|] == plan.items[j].destination[|root|];
      }
    }
  }
}
