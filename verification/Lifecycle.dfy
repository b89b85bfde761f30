/** Quarantine, purge and restore with their durable evidence (teldrive_lab/lifecycle.py). */
module Lifecycle {
  import opened Base
  import opened Files
  import opened Retention
  import opened Transfer
  import Safety

  datatype Action = Keep | Quarantine | PurgeReady | PurgeBlocked | Locked | Restore

  datatype Record = Record(source: Path, quarantine: Path, size: nat, sha: Digest,
                           quarantinedAt: real, purgeAfter: real, locked: bool)

  datatype Item = Item(source: Path, quarantine: Path, action: Action, size: nat, sha: Option<Digest>,
                       purgeAfter: Option<real>, destination: Option<Path>)

  type Plan = seq<Item>

  type Records = map<Path, Record>

  function Under(root: Path, name: string): Path {
    if name == "" then root else root + [name]
  }

  /** The table constraints: keyed by source, quarantine paths unique. */
  ghost predicate WellKept(records: Records) {
    && (forall s :: s in records ==> records[s].source == s)
    && (forall s, t :: s in records && t in records && records[s].quarantine == records[t].quarantine ==> s == t)
  }

  /** Every recorded quarantine file that is present has its recorded size and digest. */
  ghost predicate Evidence(sha: Bytes -> Digest, files: map<Path, Bytes>, records: Records) {
    forall s :: s in records && records[s].quarantine in files ==>
      Matches(sha, files[records[s].quarantine], records[s])
  }

  predicate Matches(sha: Bytes -> Digest, content: Bytes, r: Record) {
    |content| == r.size && sha(content) == r.sha
  }

  /** The source itself still has the recorded size and digest. */
  predicate Backed(sha: Bytes -> Digest, files: map<Path, Bytes>, r: Record) {
    r.source in files && Matches(sha, files[r.source], r)
  }

  /** The quarantine file, if present, has the recorded digest; and the recorded size, unless it and the source
      are byte strings of different lengths with one digest. */
  predicate Attested(sha: Bytes -> Digest, files: map<Path, Bytes>, r: Record) {
    r.quarantine in files ==>
      && sha(files[r.quarantine]) == r.sha
      && (|files[r.quarantine]| == r.size || Backed(sha, files, r))
  }

  ghost predicate Attestation(sha: Bytes -> Digest, files: map<Path, Bytes>, records: Records) {
    forall s :: s in records ==> Attested(sha, files, records[s])
  }

  /** No existing file is altered; files may only appear at `fresh`. */
  ghost predicate OnlyAdds(before: map<Path, Bytes>, after: map<Path, Bytes>, places: set<Path>) {
    && (forall p :: p in before ==> p in after && after[p] == before[p])
    && (forall p :: p in after && p !in before ==> p in places)
  }

  /** ORDER BY source. */
  method Ordered(rows: seq<Record>) returns (ordered: seq<Record>)
    ensures |ordered| == |rows| && Sorted(ordered, SourceText)
    ensures Distinct(rows, SourceOf) ==> Distinct(ordered, SourceOf)
    ensures forall r :: r in ordered <==> r in rows
  {
    ordered := Sort(rows, SourceText);
    SortSorted(rows, SourceText);
    SortMembers(rows, SourceText);
    if Distinct(rows, SourceOf) {
      SortKeepsDistinct(rows, SourceText, SourceOf);
    }
  }

  lemma AllListed(records: Records, rows: seq<Record>)
    requires WellKept(records) && forall r :: r in rows <==> exists s :: s in records && records[s] == r
    ensures forall k :: 0 <= k < |rows| ==> rows[k].source in records && records[rows[k].source] == rows[k]
    ensures forall s :: s in records ==> exists k :: 0 <= k < |rows| && rows[k].source == s
  {
    forall s | s in records ensures exists k :: 0 <= k < |rows| && rows[k].source == s {
      assert records[s] in rows;
      var k :| 0 <= k < |rows| && rows[k] == records[s];
      assert rows[k].source == s;
    }
    forall k | 0 <= k < |rows| ensures rows[k].source in records && records[rows[k].source] == rows[k] {
      assert rows[k] in rows;
    }
  }

  lemma InTextOrder(rows: seq<Record>)
    requires Sorted(rows, SourceText) && Distinct(rows, SourceOf)
    ensures forall i, j :: 0 <= i < j < |rows| ==>
              rows[i].source != rows[j].source && Leq(Safety.Text(rows[i].source), Safety.Text(rows[j].source))
  {
    forall i, j | 0 <= i < j < |rows|
      ensures rows[i].source != rows[j].source && Leq(Safety.Text(rows[i].source), Safety.Text(rows[j].source))
    {
      assert SourceOf(rows[i]) != SourceOf(rows[j]) && Leq(SourceText(rows[i]), SourceText(rows[j]));
    }
  }

  class LifecycleStore {
    var records: Records

    constructor ()
      ensures records == map[]
    {
      records := map[];
    }

    method Put(r: Record) returns (stored: Result<(), Error>)
      requires WellKept(records)
      modifies this
      ensures WellKept(records)
      ensures stored.Ok? <==> forall s :: s in old(records) && s != r.source ==>
                old(records)[s].quarantine != r.quarantine
      ensures records == if stored.Ok? then old(records)[r.source := r] else old(records)
      ensures stored.Err? ==> stored.error == IntegrityError
    {
      if exists s :: s in records && s != r.source && records[s].quarantine == r.quarantine {
        return Err(IntegrityError);
      }
      records := records[r.source := r];
      stored := Ok(());
    }

    /** `all()`: every row once, in the order of their source text. */
    method All() returns (rows: seq<Record>)
      requires WellKept(records)
      ensures forall k :: 0 <= k < |rows| ==> rows[k].source in records && records[rows[k].source] == rows[k]
      ensures forall s :: s in records ==> exists k :: 0 <= k < |rows| && rows[k].source == s
      ensures |rows| == |records| && Distinct(rows, SourceOf) && Sorted(rows, SourceText)
      ensures forall i, j :: 0 <= i < j < |rows| ==>
                rows[i].source != rows[j].source && Leq(Safety.Text(rows[i].source), Safety.Text(rows[j].source))
    {
      var left := records.Keys;
      rows := [];
      while left != {}
        invariant left <= records.Keys && |rows| + |left| == |records|
        invariant forall r :: r in rows <==> exists s :: s in records && s !in left && records[s] == r
        invariant forall j :: 0 <= j < |rows| ==> SourceOf(rows[j]) in records && SourceOf(rows[j]) !in left
        invariant Distinct(rows, SourceOf)
        decreases |left|
      {
        var s :| s in left;
        left := left - {s};
        rows := rows + [records[s]];
      }
      rows := Ordered(rows);
      AllListed(records, rows);
      InTextOrder(rows);
    }

    method SetLocked(source: Path, locked: bool)
      modifies this
      ensures records == Relocked(old(records), source, locked)
      ensures records == if source in old(records) then old(records)[source := old(records)[source].(locked := locked)]
              else old(records)
    {
      if source in records {
        records := records[source := records[source].(locked := locked)];
      }
    }
  }

  function Relocked(records: Records, source: Path, locked: bool): Records {
    if source in records then records[source := records[source].(locked := locked)] else records
  }

  function PathText(p: Path): string { Safety.Text(p) }

  function SourceOf(r: Record): Path { r.source }

  function ItemSource(i: Item): Path { i.source }

  function SourceText(r: Record): string { Safety.Text(r.source) }

  // ---------- plans ----------

  /** The plan item is as good as when it was made. */
  ghost predicate FreshItem(sha: Bytes -> Digest, files: map<Path, Bytes>, item: Item) {
    && item.source in files && item.size == |files[item.source]|
    && item.sha == Some(sha(files[item.source])) && item.purgeAfter.Some?
  }

  /** What the QUARANTINE items of the plan say about their sources is true of `files`. */
  ghost predicate FreshPlan(sha: Bytes -> Digest, files: map<Path, Bytes>, plan: Plan) {
    forall k :: 0 <= k < |plan| && plan[k].action == Quarantine ==> FreshItem(sha, files, plan[k])
  }

  /** The target is on record for another source, so the UNIQUE constraint refuses the new record. */
  ghost predicate Taken(records: Records, item: Item) {
    exists s :: s in records && s != item.source && records[s].quarantine == item.quarantine
  }

  ghost predicate Unshared(records: Records, plan: Plan) {
    forall k :: 0 <= k < |plan| && plan[k].action == Quarantine ==> !Taken(records, plan[k])
  }

  function Targets(plan: Plan): set<Path> {
    set k | 0 <= k < |plan| && plan[k].action == Quarantine :: plan[k].quarantine
  }

  ghost predicate Mentions(plan: Plan, source: Path) {
    exists k :: 0 <= k < |plan| && plan[k].source == source
  }

  lemma MentionsMore(plan: Plan, item: Item)
    ensures Mentions(plan + [item], item.source)
    ensures forall s :: Mentions(plan, s) ==> Mentions(plan + [item], s)
  {
    assert (plan + [item])[|plan|] == item;
    forall s | Mentions(plan, s) ensures Mentions(plan + [item], s) {
      var k :| 0 <= k < |plan| && plan[k].source == s;
      assert (plan + [item])[k].source == s;
    }
  }

  /** The item for a source: QUARANTINE exactly when the source is there and its target free, neither protected. */
  ghost predicate PlannedItem(boundary: seq<Safety.Path>, files: map<Path, Bytes>, dirs: set<Path>, item: Item,
                              root: Path, policy: Policy, now: real)
  {
    && item.quarantine == Under(root, Name(item.source))
    && (item.action == Quarantine <==>
          && item.source in files && item.quarantine !in files && item.quarantine !in dirs
          && Safety.Untouched(boundary, [item.source, item.quarantine]))
    && item.size == (if item.source in files then |files[item.source]| else 0)
    && (item.action == Quarantine ==> item.purgeAfter == Some(now + EffectiveRetention(policy)))
    && (item.action != Quarantine ==> item.action == PurgeBlocked && item.purgeAfter.None?)
  }

  /** Every item is the one for the target at its place. */
  ghost predicate PlannedSoFar(boundary: seq<Safety.Path>, files: map<Path, Bytes>, dirs: set<Path>, targets: seq<Path>,
                               items: Plan, root: Path, policy: Policy, now: real)
  {
    |items| <= |targets| && forall k :: 0 <= k < |items| ==>
      PlannedItem(boundary, files, dirs, items[k], root, policy, now) && items[k].source == targets[k]
  }

  lemma PlanGrows(boundary: seq<Safety.Path>, files: map<Path, Bytes>, dirs: set<Path>, targets: seq<Path>, items: Plan,
                  item: Item, root: Path, policy: Policy, now: real)
    requires PlannedSoFar(boundary, files, dirs, targets, items, root, policy, now) && |items| < |targets|
    requires PlannedItem(boundary, files, dirs, item, root, policy, now) && item.source == targets[|items|]
    ensures PlannedSoFar(boundary, files, dirs, targets, items + [item], root, policy, now)
  {}

  /** The item for a record: PURGE_READY exactly when the record is unlocked, its copy is there and its time has
      come. */
  predicate PurgeItem(files: map<Path, Bytes>, records: Records, item: Item, now: real) {
    && item.source in records
    && var r := records[item.source];
       && item.quarantine == r.quarantine && item.size == r.size
       && item.sha == Some(r.sha) && item.purgeAfter == Some(r.purgeAfter)
       && (item.action == PurgeReady || item.action == PurgeBlocked || item.action == Locked)
       && (item.action == PurgeReady <==> !r.locked && r.quarantine in files && r.purgeAfter <= now)
       && (item.action == Locked <==> r.locked)
  }

  lemma SameSources(plan: Plan, rows: seq<Record>, records: Records)
    requires |plan| == |rows| && forall k :: 0 <= k < |plan| ==> plan[k].source == rows[k].source
    requires Distinct(rows, SourceOf) && forall s :: s in records ==> exists k :: 0 <= k < |rows| && rows[k].source == s
    ensures Distinct(plan, ItemSource) && forall s :: s in records ==> Mentions(plan, s)
  {
    forall i, j | 0 <= i < j < |plan| ensures ItemSource(plan[i]) != ItemSource(plan[j]) {
      assert SourceOf(rows[i]) != SourceOf(rows[j]);
    }
    forall s | s in records ensures Mentions(plan, s) {
      var k :| 0 <= k < |rows| && rows[k].source == s;
      assert plan[k].source == s;
    }
  }

  /** The item for a record: RESTORE exactly when its copy is there and its destination free, neither protected. */
  ghost predicate RestoreItem(boundary: seq<Safety.Path>, files: map<Path, Bytes>, dirs: set<Path>, records: Records,
                              item: Item, root: Path)
  {
    && item.source in records
    && var r := records[item.source];
       && item.quarantine == r.quarantine && item.sha == Some(r.sha) && item.size == r.size
       && item.destination == Some(Under(root, Name(r.source)))
       && (item.action == Restore || item.action == PurgeBlocked)
       && (item.action == Restore <==>
             && r.quarantine in files && item.destination.value !in files && item.destination.value !in dirs
             && Safety.Untouched(boundary, [r.quarantine, item.destination.value]))
  }

  /** The plan has the selected ones among the first `k` rows, each once, and none of the rows still to come. */
  ghost predicate Covers(plan: Plan, rows: seq<Record>, k: nat, selected: Option<seq<Path>>)
    requires k <= |rows|
  {
    && Distinct(plan, ItemSource)
    && (forall j, i :: 0 <= j < |plan| && k <= i < |rows| ==> plan[j].source != rows[i].source)
    && (forall j :: 0 <= j < |plan| ==> Selects(selected, plan[j].quarantine))
    && (forall j :: 0 <= j < k && Selects(selected, rows[j].quarantine) ==> Mentions(plan, rows[j].source))
  }

  lemma CoversNext(plan: Plan, next: Plan, rows: seq<Record>, k: nat, selected: Option<seq<Path>>)
    requires k < |rows| && Covers(plan, rows, k, selected) && Distinct(rows, SourceOf)
    requires if Selects(selected, rows[k].quarantine)
             then exists item ::
                    next == plan + [item] && item.source == rows[k].source && item.quarantine == rows[k].quarantine
             else next == plan
    ensures Covers(next, rows, k + 1, selected)
  {
    forall i | k + 1 <= i < |rows| ensures rows[k].source != rows[i].source {
      assert SourceOf(rows[k]) != SourceOf(rows[i]);
    }
    if Selects(selected, rows[k].quarantine) {
      var item :| next == plan + [item] && item.source == rows[k].source && item.quarantine == rows[k].quarantine;
      MentionsMore(plan, item);
    }
  }

  /** The findings of the first rows, in their order. */
  ghost predicate FindingsOf(sha: Bytes -> Digest, files: map<Path, Bytes>, rows: seq<Record>,
                             findings: seq<(Path, Finding)>)
  {
    && |findings| <= |rows|
    && forall j :: 0 <= j < |findings| ==> findings[j] == (rows[j].source, Reconciled(sha, files, rows[j]))
  }

  lemma FindingsCover(sha: Bytes -> Digest, files: map<Path, Bytes>, records: Records, rows: seq<Record>,
                      findings: seq<(Path, Finding)>)
    requires FindingsOf(sha, files, rows, findings) && |findings| == |rows|
    requires forall k :: 0 <= k < |rows| ==> rows[k].source in records && records[rows[k].source] == rows[k]
    requires forall s :: s in records ==> exists k :: 0 <= k < |rows| && rows[k].source == s
    ensures forall k :: 0 <= k < |findings| ==>
              findings[k].0 in records && findings[k].1 == Reconciled(sha, files, records[findings[k].0])
    ensures forall s :: s in records ==> exists k :: 0 <= k < |findings| && findings[k].0 == s
  {
    forall s | s in records ensures exists k :: 0 <= k < |findings| && findings[k].0 == s {
      var k :| 0 <= k < |rows| && rows[k].source == s;
      assert findings[k].0 == s;
    }
  }

  /** What a finding says: the copy is gone; it is there with another size or digest; it is there as recorded, and the
      record is locked; or it is there as recorded, and the record is not locked. */
  predicate Tells(finding: Finding, sha: Bytes -> Digest, files: map<Path, Bytes>, r: Record) {
    && (finding == MissingQuarantine <==> r.quarantine !in files)
    && (finding == CorruptQuarantine <==>
          r.quarantine in files && (|files[r.quarantine]| != r.size || sha(files[r.quarantine]) != r.sha))
    && (finding == LockedVerified <==>
          r.quarantine in files && |files[r.quarantine]| == r.size && sha(files[r.quarantine]) == r.sha && r.locked)
    && (finding == Verified <==>
          r.quarantine in files && |files[r.quarantine]| == r.size && sha(files[r.quarantine]) == r.sha && !r.locked)
  }

  lemma FindingsTell(sha: Bytes -> Digest, files: map<Path, Bytes>, records: Records, findings: seq<(Path, Finding)>)
    requires forall k :: 0 <= k < |findings| ==>
               findings[k].0 in records && findings[k].1 == Reconciled(sha, files, records[findings[k].0])
    ensures forall k :: 0 <= k < |findings| ==> Tells(findings[k].1, sha, files, records[findings[k].0])
  {}

  lemma PathsInTextOrder(paths: seq<Path>)
    ensures |Sort(paths, PathText)| == |paths| && multiset(Sort(paths, PathText)) == multiset(paths)
    ensures forall i, j :: 0 <= i < j < |paths| ==>
              Leq(Safety.Text(Sort(paths, PathText)[i]), Safety.Text(Sort(paths, PathText)[j]))
  {
    var sorted := Sort(paths, PathText);
    SortSorted(paths, PathText);
    SortKeeps(paths, PathText);
    forall i, j | 0 <= i < j < |sorted| ensures Leq(Safety.Text(sorted[i]), Safety.Text(sorted[j])) {
      assert Leq(PathText(sorted[i]), PathText(sorted[j]));
    }
  }

  class LifecyclePlanner {
    const fs: FileSystem
    const store: LifecycleStore
    const boundary: seq<Safety.Path>

    constructor (fs: FileSystem, store: LifecycleStore, boundary: seq<Safety.Path>)
      ensures this.fs == fs && this.store == store && this.boundary == boundary
    {
      this.fs, this.store, this.boundary := fs, store, boundary;
    }

    /** It raises only if an I/O call on some source fails; the items come in the order of the paths' texts. */
    method QuarantinePlan(paths: seq<Path>, root: Path, policy: Policy, now: real) returns (r: Result<Plan, Error>)
      requires fs.Valid()
      modifies fs`tick
      ensures fs.Valid() && old(fs.tick) <= fs.tick
      ensures r.Err? ==> r.error == OsError
      ensures r.Err? <==> Faulted(fs.fault, old(fs.tick), fs.tick)
      ensures r.Ok? ==>
        && |r.value| == |paths| && FreshPlan(fs.sha, fs.files, r.value)
        && forall k :: 0 <= k < |paths| ==>
             PlannedItem(boundary, fs.files, fs.dirs, r.value[k], root, policy, now)
             && r.value[k].source == Sort(paths, PathText)[k]
      ensures multiset(Sort(paths, PathText)) == multiset(paths)
      ensures r.Ok? ==> forall i, j :: 0 <= i < j < |r.value| ==>
                Leq(Safety.Text(r.value[i].source), Safety.Text(r.value[j].source))
    {
      PathsInTextOrder(paths);
      var ordered := Sort(paths, PathText);
      var items: Plan := [];
      for k := 0 to |ordered|
        invariant fs.Valid() && |items| == k && old(fs.tick) <= fs.tick
        invariant !Faulted(fs.fault, old(fs.tick), fs.tick)
        invariant FreshPlan(fs.sha, fs.files, items)
        invariant PlannedSoFar(boundary, fs.files, fs.dirs, ordered, items, root, policy, now)
      {
        var item := PlanOne(ordered[k], root, policy, now);
        if item.Err? {
          return Err(item.error);
        }
        PlanGrows(boundary, fs.files, fs.dirs, ordered, items, item.value, root, policy, now);
        items := items + [item.value];
      }
      r := Ok(items);
    }

    /** One round of the planning loop. */
    method PlanOne(target: Path, root: Path, policy: Policy, now: real) returns (r: Result<Item, Error>)
      requires fs.Valid()
      modifies fs`tick
      ensures fs.Valid() && old(fs.tick) <= fs.tick
      ensures r.Err? ==> r.error == OsError && target in fs.files
      ensures r.Err? <==> Faulted(fs.fault, old(fs.tick), fs.tick)
      ensures r.Ok? ==> r.value.source == target && PlannedItem(boundary, fs.files, fs.dirs, r.value, root, policy, now)
      ensures r.Ok? && r.value.action == Quarantine ==> FreshItem(fs.sha, fs.files, r.value)
      ensures r.Ok? && target != [] && target[|target| - 1] != "" ==>
                r.value.quarantine == root + [target[|target| - 1]]
      ensures r.Ok? ==>
        var place := r.value.quarantine;
        && (r.value.action == Quarantine <==>
              && target in fs.files && place !in fs.files && place !in fs.dirs
              && forall top :: top in boundary ==> !(top <= target) && !(top <= place))
        && (r.value.action == Quarantine ==>
              && r.value.size == |fs.files[target]| && r.value.sha == Some(fs.sha(fs.files[target]))
              && r.value.purgeAfter == Some(now + Max(policy.retention, policy.safetyWindow)))
    {
      assert target in [target, Under(root, Name(target))];
      assert Under(root, Name(target)) in [target, Under(root, Name(target))];
      var destination := Under(root, Name(target));
      var vetoed := Safety.Vetoed(boundary, Safety.Transfer, [target, destination]);
      if target !in fs.files {
        return Ok(Item(target, destination, PurgeBlocked, 0, None, None, None));
      }
      var size := fs.Size(target);
      if size.Err? {
        return Err(size.error);
      }
      if vetoed {
        return Ok(Item(target, destination, PurgeBlocked, size.value, None, None, None));
      }
      if destination in fs.files || destination in fs.dirs {
        return Ok(Item(target, destination, PurgeBlocked, size.value, None, None, None));
      }
      var digest := fs.HashFile(target);
      if digest.Err? {
        return Err(digest.error);
      }
      r := Ok(Item(target, destination, Quarantine, size.value, Some(digest.value),
                   Some(now + EffectiveRetention(policy)), None));
    }

    method PurgePlan(now: real) returns (plan: Plan)
      requires WellKept(store.records)
      ensures |plan| == |store.records| && Distinct(plan, ItemSource)
      ensures forall k :: 0 <= k < |plan| ==> PurgeItem(fs.files, store.records, plan[k], now)
      ensures forall s :: s in store.records ==> Mentions(plan, s)
    {
      var rows := store.All();
      plan := [];
      for k := 0 to |rows|
        invariant |plan| == k
        invariant forall j :: 0 <= j < k ==> PurgeItem(fs.files, store.records, plan[j], now)
        invariant forall j :: 0 <= j < k ==> plan[j].source == rows[j].source
      {
        var item := PurgeOneItem(rows[k], now);
        plan := plan + [item];
      }
      SameSources(plan, rows, store.records);
    }

    /** The item `purge_plan` makes of one record. */
    method PurgeOneItem(r: Record, now: real) returns (item: Item)
      requires r.source in store.records && store.records[r.source] == r
      ensures item.source == r.source && PurgeItem(fs.files, store.records, item, now)
      ensures item.quarantine == r.quarantine
      ensures item.action == PurgeReady <==> !r.locked && r.quarantine in fs.files && r.purgeAfter <= now
      ensures item.action == Locked <==> r.locked
    {
      var action :=
        if r.locked then Locked
        else if r.quarantine !in fs.files then PurgeBlocked
        else if r.purgeAfter > now then PurgeBlocked
        else PurgeReady;
      item := Item(r.source, r.quarantine, action, r.size, Some(r.sha), Some(r.purgeAfter), None);
    }

    /** The item `restore_plan` makes of one selected record. */
    method RestoreOneItem(r: Record, root: Path) returns (item: Item)
      requires r.source in store.records && store.records[r.source] == r
      ensures item.source == r.source && item.quarantine == r.quarantine && item.size == r.size
              && item.sha == Some(r.sha)
      ensures item.destination == Some(Under(root, Name(r.source)))
      ensures RestoreItem(boundary, fs.files, fs.dirs, store.records, item, root)
      ensures var place := item.destination.value;
              item.action == Restore <==>
                && r.quarantine in fs.files && place !in fs.files && place !in fs.dirs
                && forall top :: top in boundary ==> !(top <= r.quarantine) && !(top <= place)
    {
      assert r.quarantine in [r.quarantine, Under(root, Name(r.source))];
      assert Under(root, Name(r.source)) in [r.quarantine, Under(root, Name(r.source))];
      var destination := Under(root, Name(r.source));
      var vetoed := Safety.Vetoed(boundary, Safety.Transfer, [r.quarantine, destination]);
      var action :=
        if r.quarantine !in fs.files then PurgeBlocked
        else if destination in fs.files || destination in fs.dirs then PurgeBlocked
        else if vetoed then PurgeBlocked
        else Restore;
      item := Item(r.source, r.quarantine, action, r.size, Some(r.sha), Some(r.purgeAfter), Some(destination));
    }

    /** `selected` names quarantine paths; an empty selection selects everything. */
    method RestorePlan(root: Path, selected: Option<seq<Path>>) returns (plan: Plan)
      requires WellKept(store.records) && fs.Valid()
      ensures forall k :: 0 <= k < |plan| ==> RestoreItem(boundary, fs.files, fs.dirs, store.records, plan[k], root)
      ensures forall s :: s in store.records && Selects(selected, store.records[s].quarantine) ==> Mentions(plan, s)
      ensures forall k :: 0 <= k < |plan| ==> Selects(selected, plan[k].quarantine)
      ensures Distinct(plan, ItemSource)
      ensures forall s :: s in store.records ==>
        ((exists k :: 0 <= k < |plan| && plan[k].source == s)
         <==> selected == None || selected.value == [] || store.records[s].quarantine in selected.value)
    {
      var rows := store.All();
      plan := [];
      var everything := selected.None? || selected.value == [];
      for k := 0 to |rows|
        invariant forall j :: 0 <= j < |plan| ==> RestoreItem(boundary, fs.files, fs.dirs, store.records, plan[j], root)
        invariant Covers(plan, rows, k, selected)
      {
        var r := rows[k];
        ghost var before := plan;
        if everything || r.quarantine in selected.value {
          var item := RestoreOneItem(r, root);
          plan := plan + [item];
        }
        CoversNext(before, plan, rows, k, selected);
      }
    }

    /** The read-only recovery view: one finding per record, in the order of the sources.  It raises only if an
        I/O call fails. */
    method Reconcile() returns (r: Result<seq<(Path, Finding)>, Error>)
      requires WellKept(store.records) && fs.Valid()
      modifies fs`tick
      ensures fs.Valid() && old(fs.tick) <= fs.tick
      ensures r.Err? ==> r.error == OsError
      ensures r.Err? <==> Faulted(fs.fault, old(fs.tick), fs.tick)
      ensures r.Ok? ==> |r.value| == |store.records|
      ensures r.Ok? ==> forall k :: 0 <= k < |r.value| ==>
                r.value[k].0 in store.records
                && r.value[k].1 == Reconciled(fs.sha, fs.files, store.records[r.value[k].0])
                && Tells(r.value[k].1, fs.sha, fs.files, store.records[r.value[k].0])
      ensures r.Ok? ==> forall s :: s in store.records ==> exists k :: 0 <= k < |r.value| && r.value[k].0 == s
    {
      var rows := store.All();
      var findings: seq<(Path, Finding)> := [];
      for k := 0 to |rows|
        invariant fs.Valid() && |findings| == k && old(fs.tick) <= fs.tick
        invariant !Faulted(fs.fault, old(fs.tick), fs.tick)
        invariant FindingsOf(fs.sha, fs.files, rows, findings)
      {
        var finding := ReconcileOne(rows[k]);
        if finding.Err? {
          return Err(finding.error);
        }
        findings := findings + [(rows[k].source, finding.value)];
      }
      FindingsCover(fs.sha, fs.files, store.records, rows, findings);
      FindingsTell(fs.sha, fs.files, store.records, findings);
      r := Ok(findings);
    }

    method ReconcileOne(row: Record) returns (r: Result<Finding, Error>)
      requires fs.Valid()
      modifies fs`tick
      ensures fs.Valid() && old(fs.tick) <= fs.tick
      ensures r == if Faulted(fs.fault, old(fs.tick), fs.tick) then Err(OsError)
              else Ok(Reconciled(fs.sha, fs.files, row))
      ensures r.Ok? ==> Tells(r.value, fs.sha, fs.files, row)
    {
      if row.quarantine !in fs.files {
        return Ok(MissingQuarantine);
      }
      var size := fs.Size(row.quarantine);
      if size.Err? {
        return Err(size.error);
      }
      if size.value != row.size {
        return Ok(CorruptQuarantine);
      }
      var digest := fs.HashFile(row.quarantine);
      if digest.Err? {
        return Err(digest.error);
      }
      r := Ok(if digest.value != row.sha then CorruptQuarantine else if row.locked then LockedVerified else Verified);
    }
  }

  predicate Selects(selected: Option<seq<Path>>, quarantine: Path) {
    selected.None? || selected.value == [] || quarantine in selected.value
  }

  // ---------- execution ----------

  /** The record an applied item leaves behind. */
  predicate Stored(item: Item, copied: Digest, r: Record) {
    && r.source == item.source && r.quarantine == item.quarantine && r.size == item.size && !r.locked
    && r.sha == (if item.sha.Some? && item.sha.value != "" then item.sha.value else copied)
    && (item.purgeAfter.Some? ==> r.purgeAfter == item.purgeAfter.value)
  }

  /** A verified copy under a fresh item attests its record, whatever the digest does, and takes nothing from
      the records of other sources. */
  lemma AttestationAdded(sha: Bytes -> Digest, files: map<Path, Bytes>, records: Records, item: Item, content: Bytes,
                         r: Record)
    requires Attestation(sha, files, records)
    requires FreshItem(sha, files, item) && Stored(item, sha(content), r) && item.quarantine !in files
    requires sha(content) == sha(files[item.source]) && !Taken(records, item)
    ensures Attestation(sha, files[item.quarantine := content], records[item.source := r])
  {
    var after := files[item.quarantine := content];
    forall s | s in records && s != item.source ensures Attested(sha, after, records[s]) {
      assert Attested(sha, files, records[s]);
    }
  }

  /** Its size matches too exactly when the copy is as long as its source. */
  lemma EvidenceAdded(sha: Bytes -> Digest, files: map<Path, Bytes>, records: Records, item: Item, content: Bytes,
                      r: Record)
    requires Evidence(sha, files, records)
    requires FreshItem(sha, files, item) && Stored(item, sha(content), r) && item.quarantine !in files
    requires sha(content) == sha(files[item.source]) && !Taken(records, item)
    ensures Evidence(sha, files[item.quarantine := content], records[item.source := r])
       <==> |content| == |files[item.source]|
  {
    var after, next := files[item.quarantine := content], records[item.source := r];
    assert r.quarantine in after && after[r.quarantine] == content;
    if |content| == |files[item.source]| {
      forall s | s in next && next[s].quarantine in after ensures Matches(sha, after[next[s].quarantine], next[s]) {
        if s != item.source {
          assert records[s].quarantine in files;
        }
      }
    } else {
      assert !Matches(sha, after[next[item.source].quarantine], next[item.source]);
    }
  }

  /** Every other source on record at the target would be matched by this content. */
  ghost predicate OthersMatch(sha: Bytes -> Digest, records: Records, item: Item, content: Bytes) {
    forall s :: s in records && s != item.source && records[s].quarantine == item.quarantine ==>
      Matches(sha, content, records[s])
  }

  /** A copy whose record is refused: the evidence of the other source now stands or falls with the new bytes. */
  lemma EvidenceOverlaid(sha: Bytes -> Digest, files: map<Path, Bytes>, records: Records, item: Item, content: Bytes)
    requires WellKept(records) && Evidence(sha, files, records) && Taken(records, item)
    ensures Evidence(sha, files[item.quarantine := content], records)
       <==> OthersMatch(sha, records, item, content)
  {
    var after := files[item.quarantine := content];
    if OthersMatch(sha, records, item, content) {
      forall s | s in records && records[s].quarantine in after
        ensures Matches(sha, after[records[s].quarantine], records[s])
      {
        if records[s].quarantine != item.quarantine {
          assert records[s].quarantine in files;
        }
      }
    }
  }

  lemma Witnessed(sha: Bytes -> Digest, files: map<Path, Bytes>, records: Records, item: Item, content: Bytes,
                  r: Record)
    requires WellKept(records) && item.quarantine !in files && item.source in files
    requires Stored(item, sha(content), r) && sha(content) == sha(files[item.source])
    ensures Attestation(sha, files, records) && FreshItem(sha, files, item) && !Taken(records, item)
            ==> Attestation(sha, files[item.quarantine := content], records[item.source := r])
    ensures Evidence(sha, files, records) && FreshItem(sha, files, item) && !Taken(records, item)
            ==> (Evidence(sha, files[item.quarantine := content], records[item.source := r])
                 <==> |content| == |files[item.source]|)
    ensures Evidence(sha, files, records) && Taken(records, item)
            ==> (Evidence(sha, files[item.quarantine := content], records)
                 <==> OthersMatch(sha, records, item, content))
  {
    if Attestation(sha, files, records) && FreshItem(sha, files, item) && !Taken(records, item) {
      AttestationAdded(sha, files, records, item, content, r);
    }
    if Evidence(sha, files, records) && FreshItem(sha, files, item) && !Taken(records, item) {
      EvidenceAdded(sha, files, records, item, content, r);
    }
    if Evidence(sha, files, records) && Taken(records, item) {
      EvidenceOverlaid(sha, files, records, item, content);
    }
  }

  ghost predicate LeftBy(sha: Bytes -> Digest, item: Item, files0: map<Path, Bytes>, files: map<Path, Bytes>, r: Record)
  {
    && item.action == Quarantine && item.quarantine !in files0 && item.quarantine in files && item.source in files
    && sha(files[item.quarantine]) == sha(files[item.source])
    && Stored(item, sha(files[item.quarantine]), r)
  }

  /** An item whose target was free and now holds a verified copy has left the record. */
  ghost predicate FromPlan(sha: Bytes -> Digest, plan: Plan, files0: map<Path, Bytes>, files: map<Path, Bytes>,
                           r: Record)
  {
    exists k :: 0 <= k < |plan| && LeftBy(sha, plan[k], files0, files, r)
  }

  ghost predicate Grows(files: map<Path, Bytes>, files': map<Path, Bytes>) {
    forall p :: p in files ==> p in files' && files'[p] == files[p]
  }

  lemma FromPlanGrows(sha: Bytes -> Digest, plan: Plan, files0: map<Path, Bytes>, files: map<Path, Bytes>,
                      files': map<Path, Bytes>, r: Record)
    requires Grows(files, files') && FromPlan(sha, plan, files0, files, r)
    ensures FromPlan(sha, plan, files0, files', r)
  {
    var k :| 0 <= k < |plan| && LeftBy(sha, plan[k], files0, files, r);
    assert LeftBy(sha, plan[k], files0, files', r);
  }

  /** A copy that has appeared at the path of an old record belongs to an item for another source. */
  ghost predicate NotFilled(plan: Plan, files0: map<Path, Bytes>, files: map<Path, Bytes>, r: Record) {
    r.quarantine in files && r.quarantine !in files0 ==>
      exists k ::
        && 0 <= k < |plan| && plan[k].action == Quarantine
        && plan[k].source != r.source && plan[k].quarantine == r.quarantine
  }

  /** Where each record of a run of `quarantine` comes from. */
  ghost predicate Accounted(sha: Bytes -> Digest, plan: Plan, files0: map<Path, Bytes>, records0: Records,
                            files: map<Path, Bytes>, records: Records)
  {
    && (forall s :: s in records0 ==> s in records)
    && (forall s :: s in records ==> Explained(sha, plan, files0, records0, files, s, records[s]))
  }

  ghost predicate Explained(sha: Bytes -> Digest, plan: Plan, files0: map<Path, Bytes>, records0: Records,
                            files: map<Path, Bytes>, s: Path, r: Record)
  {
    || (s in records0 && r == records0[s] && NotFilled(plan, files0, files, r))
    || FromPlan(sha, plan, files0, files, r)
  }

  /** Every QUARANTINE item among the first `n` has been carried out. */
  ghost predicate Carried(sha: Bytes -> Digest, plan: Plan, n: nat, results: seq<Path>, files0: map<Path, Bytes>,
                          files: map<Path, Bytes>, records: Records)
    requires n <= |plan|
  {
    forall k :: 0 <= k < n && plan[k].action == Quarantine ==>
      && plan[k].quarantine in results && plan[k].quarantine in files && plan[k].source in records
      && FromPlan(sha, plan, files0, files, records[plan[k].source])
  }

  lemma ExplainedGrows(sha: Bytes -> Digest, plan: Plan, n: nat, files0: map<Path, Bytes>, records0: Records,
                       files: map<Path, Bytes>, files': map<Path, Bytes>, s: Path, r: Record)
    requires n < |plan| && plan[n].action == Quarantine && r.source == s && Grows(files, files')
    requires forall p :: p in files' && p !in files ==> p == plan[n].quarantine
    requires Explained(sha, plan, files0, records0, files, s, r)
             && (r.quarantine == plan[n].quarantine ==> s != plan[n].source)
    ensures Explained(sha, plan, files0, records0, files', s, r)
  {
    if FromPlan(sha, plan, files0, files, r) {
      FromPlanGrows(sha, plan, files0, files, files', r);
    } else if r.quarantine == plan[n].quarantine {
      assert plan[n].source != r.source;
    }
  }

  /** A refused record: the copy appears, the records stay. */
  lemma AccountedGrows(sha: Bytes -> Digest, plan: Plan, n: nat, files0: map<Path, Bytes>, records0: Records,
                       files: map<Path, Bytes>, files': map<Path, Bytes>, records: Records)
    requires n < |plan| && plan[n].action == Quarantine && WellKept(records) && Taken(records, plan[n])
    requires Accounted(sha, plan, files0, records0, files, records) && Grows(files, files')
    requires forall p :: p in files' && p !in files ==> p == plan[n].quarantine
    ensures Accounted(sha, plan, files0, records0, files', records)
  {
    forall s | s in records ensures Explained(sha, plan, files0, records0, files', s, records[s]) {
      ExplainedGrows(sha, plan, n, files0, records0, files, files', s, records[s]);
    }
  }

  lemma AccountedStep(sha: Bytes -> Digest, plan: Plan, n: nat, files0: map<Path, Bytes>, records0: Records,
                      files: map<Path, Bytes>, records: Records, files': map<Path, Bytes>, r: Record)
    requires n < |plan| && WellKept(records) && !Taken(records, plan[n])
    requires Accounted(sha, plan, files0, records0, files, records) && Grows(files0, files) && Grows(files, files')
    requires forall p :: p in files' && p !in files ==> p == plan[n].quarantine
    requires LeftBy(sha, plan[n], files, files', r)
    ensures Accounted(sha, plan, files0, records0, files', records[plan[n].source := r])
  {
    assert LeftBy(sha, plan[n], files0, files', r);
    forall s | s in records && s != plan[n].source
      ensures Explained(sha, plan, files0, records0, files', s, records[s])
    {
      assert records[s].quarantine != plan[n].quarantine;
      ExplainedGrows(sha, plan, n, files0, records0, files, files', s, records[s]);
    }
  }

  lemma CarriedStep(sha: Bytes -> Digest, plan: Plan, n: nat, results: seq<Path>, files0: map<Path, Bytes>,
                    files: map<Path, Bytes>, records: Records, files': map<Path, Bytes>, r: Record)
    requires n < |plan| && Carried(sha, plan, n, results, files0, files, records)
    requires Grows(files0, files) && Grows(files, files') && LeftBy(sha, plan[n], files, files', r)
    ensures Carried(sha, plan, n + 1, results + [plan[n].quarantine], files0, files', records[plan[n].source := r])
  {
    assert LeftBy(sha, plan[n], files0, files', r);
    assert FromPlan(sha, plan, files0, files', r);
    forall k | 0 <= k < n && plan[k].action == Quarantine && plan[k].source != plan[n].source
      ensures FromPlan(sha, plan, files0, files', records[plan[k].source])
    {
      FromPlanGrows(sha, plan, files0, files, files', records[plan[k].source]);
    }
  }

  /** A target that no other source had on record, and that is still free, is on record for no other source. */
  lemma NeverShared(sha: Bytes -> Digest, plan: Plan, n: nat, files0: map<Path, Bytes>, records0: Records,
                    files: map<Path, Bytes>, records: Records)
    requires n < |plan| && plan[n].action == Quarantine && Unshared(records0, plan)
    requires Accounted(sha, plan, files0, records0, files, records) && plan[n].quarantine !in files
    ensures !Taken(records, plan[n])
  {
    forall s | s in records && s != plan[n].source ensures records[s].quarantine != plan[n].quarantine {
      assert Explained(sha, plan, files0, records0, files, s, records[s]);
      assert !Taken(records0, plan[n]);
    }
  }

  /** How far `quarantine` has got before item `n`. */
  ghost predicate Underway(sha: Bytes -> Digest, plan: Plan, n: nat, results: seq<Path>, files0: map<Path, Bytes>,
                           records0: Records, files: map<Path, Bytes>, records: Records)
    requires n <= |plan|
  {
    && WellKept(records) && OnlyAdds(files0, files, Targets(plan))
    && Accounted(sha, plan, files0, records0, files, records)
    && Carried(sha, plan, n, results, files0, files, records)
  }

  lemma UnderwayStart(sha: Bytes -> Digest, plan: Plan, files: map<Path, Bytes>, records: Records)
    requires WellKept(records)
    ensures Underway(sha, plan, 0, [], files, records, files, records)
  {}

  lemma UnderwaySkip(sha: Bytes -> Digest, plan: Plan, n: nat, results: seq<Path>, files0: map<Path, Bytes>,
                     records0: Records, files: map<Path, Bytes>, records: Records)
    requires n < |plan| && plan[n].action != Quarantine
    requires Underway(sha, plan, n, results, files0, records0, files, records)
    ensures Underway(sha, plan, n + 1, results, files0, records0, files, records)
  {}

  lemma UnderwayNext(sha: Bytes -> Digest, plan: Plan, n: nat, results: seq<Path>, files0: map<Path, Bytes>,
                     records0: Records, files: map<Path, Bytes>, records: Records, files': map<Path, Bytes>, r: Record)
    requires n < |plan| && Underway(sha, plan, n, results, files0, records0, files, records) && !Taken(records, plan[n])
    requires plan[n].quarantine in files' && files' == files[plan[n].quarantine := files'[plan[n].quarantine]]
    requires LeftBy(sha, plan[n], files, files', r) && WellKept(records[plan[n].source := r])
    ensures Underway(sha, plan, n + 1, results + [plan[n].quarantine], files0, records0, files',
                     records[plan[n].source := r])
  {
    assert plan[n].quarantine in Targets(plan);
    AccountedStep(sha, plan, n, files0, records0, files, records, files', r);
    CarriedStep(sha, plan, n, results, files0, files, records, files', r);
  }

  /** Nothing stands in the way of the copy, the safety boundary included. */
  ghost predicate Clear(boundary: seq<Safety.Path>, source: Path, destination: Path, files: map<Path, Bytes>,
                        dirs: set<Path>)
  {
    Safety.Untouched(boundary, [source, destination]) && Unobstructed(Spec(source, destination, false), files, dirs)
  }

  /** From item `n` on no QUARANTINE item is obstructed, and none gets in the way of another. */
  ghost predicate ClearPlan(boundary: seq<Safety.Path>, plan: Plan, n: nat, files: map<Path, Bytes>, dirs: set<Path>) {
    && (forall k :: n <= k < |plan| && plan[k].action == Quarantine ==>
          Clear(boundary, plan[k].source, plan[k].quarantine, files, dirs))
    && (forall i, j :: 0 <= i < j < |plan| && plan[i].action == Quarantine && plan[j].action == Quarantine ==>
          Apart(plan[i].quarantine, plan[j].quarantine))
  }

  lemma ClearPlanNext(boundary: seq<Safety.Path>, plan: Plan, n: nat, files: map<Path, Bytes>, dirs: set<Path>,
                      files': map<Path, Bytes>, dirs': set<Path>)
    requires n < |plan| && plan[n].action == Quarantine && ClearPlan(boundary, plan, n, files, dirs)
    requires var q := plan[n].quarantine; q in files' && files' == files[q := files'[q]]
    requires forall d :: d in dirs' ==> d in dirs || d <= Parent(plan[n].quarantine)
    ensures ClearPlan(boundary, plan, n + 1, files', dirs')
  {
    forall k | n + 1 <= k < |plan| && plan[k].action == Quarantine
      ensures Clear(boundary, plan[k].source, plan[k].quarantine, files', dirs')
    {
      StillUnobstructed(Spec(plan[k].source, plan[k].quarantine, false), plan[n].quarantine, files, dirs, files',
                        dirs');
    }
  }

  class LifecycleExecutor {
    const fs: FileSystem
    const store: LifecycleStore
    const boundary: seq<Safety.Path>

    constructor (fs: FileSystem, store: LifecycleStore, boundary: seq<Safety.Path>)
      ensures this.fs == fs && this.store == store && this.boundary == boundary
    {
      this.fs, this.store, this.boundary := fs, store, boundary;
    }

    /** The copy of one QUARANTINE item.  Without faults or obstacles it succeeds. */
    method CopyVerified(source: Path, destination: Path, id: string) returns (a: Answer, digest: Option<Digest>)
      requires fs.Valid()
      modifies fs
      ensures fs.Valid() && old(fs.dirs) <= fs.dirs && old(fs.tick) <= fs.tick
      ensures forall d :: d in fs.dirs ==> d in old(fs.dirs) || d <= Parent(destination)
      ensures a == Answer(true) ==>
        && source in old(fs.files) && destination !in old(fs.files) && destination in fs.files
        && fs.files == old(fs.files)[destination := fs.files[destination]]
        && fs.sha(fs.files[destination]) == fs.sha(old(fs.files)[source])
        && digest == Some(fs.sha(fs.files[destination]))
        && (old(fs.Sound()) ==> fs.files[destination] == old(fs.files)[source])
      ensures a != Answer(true) ==> (a == Answer(false) || a == Threw(OsError)) && fs.files == old(fs.files)
      ensures old(fs.Sound()) && Clear(boundary, source, destination, old(fs.files), old(fs.dirs)) ==> a == Answer(true)
    {
      var receipt := Safety.ForPaths(Safety.Transfer, [source, destination], id);
      Safety.IssuedReceiptScope(boundary, Safety.Transfer, [source, destination], [source, destination], id);
      var copied := Managed(fs, boundary, Spec(source, destination, false), Some(receipt.value));
      if copied.Raised? {
        return Threw(copied.error), None;
      }
      a, digest := Answer(copied.result.success && copied.result.verified), copied.result.destinationSha;
    }

    /** One QUARANTINE item: copy, verify, record.  Without faults or obstacles it answers true exactly when the
        target is on record for no other source; otherwise it raises with the copy made, and then the evidence
        survives exactly when those other records happen to match the new source. */
    method QuarantineOne(item: Item, id: string, now: real) returns (a: Answer)
      requires fs.Valid() && WellKept(store.records) && item.action.Quarantine?
      modifies fs, store
      ensures fs.Valid() && WellKept(store.records) && old(fs.dirs) <= fs.dirs && old(fs.tick) <= fs.tick
      ensures forall d :: d in fs.dirs ==> d in old(fs.dirs) || d <= Parent(item.quarantine)
      ensures a == Answer(true) ==>
        && item.source in store.records && store.records[item.source].quarantinedAt == now
        && store.records[item.source].purgeAfter == item.purgeAfter.GetOr(now)
      ensures a == Answer(true) ==>
        && !Taken(old(store.records), item) && item.source in store.records
        && LeftBy(fs.sha, item, old(fs.files), fs.files, store.records[item.source])
        && fs.files == old(fs.files)[item.quarantine := fs.files[item.quarantine]]
        && store.records == old(store.records)[item.source := store.records[item.source]]
      ensures a != Answer(true) ==> store.records == old(store.records)
      ensures a != Answer(true) && a != Threw(IntegrityError) ==> fs.files == old(fs.files)
      ensures a == Threw(IntegrityError) ==>
        && Taken(old(store.records), item) && item.quarantine !in old(fs.files) && item.quarantine in fs.files
        && fs.files == old(fs.files)[item.quarantine := fs.files[item.quarantine]]
      ensures a in {Answer(true), Answer(false), Threw(OsError), Threw(IntegrityError)}
      ensures Attestation(fs.sha, old(fs.files), old(store.records)) && FreshItem(fs.sha, old(fs.files), item)
              && a != Threw(IntegrityError)
              ==> Attestation(fs.sha, fs.files, store.records)
      ensures old(fs.Sound()) && Clear(boundary, item.source, item.quarantine, old(fs.files), old(fs.dirs)) ==>
                a == if Taken(old(store.records), item) then Threw(IntegrityError) else Answer(true)
      ensures old(fs.Sound()) && Clear(boundary, item.source, item.quarantine, old(fs.files), old(fs.dirs))
              && Evidence(fs.sha, old(fs.files), old(store.records)) && FreshItem(fs.sha, old(fs.files), item) ==>
                (Evidence(fs.sha, fs.files, store.records)
                 <==> OthersMatch(fs.sha, old(store.records), item, old(fs.files)[item.source]))
    {
      var digest: Option<Digest>;
      a, digest := CopyVerified(item.source, item.quarantine, id);
      if a != Answer(true) {
        return;
      }
      var sha := if item.sha.Some? && item.sha.value != "" then item.sha.value else digest.GetOr("");
      var record := Record(item.source, item.quarantine, item.size, sha, now, item.purgeAfter.GetOr(now), false);
      var stored := store.Put(record);
      if stored.Err? {
        a := Threw(stored.error);
      }
      Witnessed(fs.sha, old(fs.files), old(store.records), item, fs.files[item.quarantine], record);
    }

    /** Nothing but the targets appears, every source keeps its bytes, and every record is accounted for.  A fresh
        plan whose targets no other source has on record keeps all records attested and never meets the UNIQUE
        constraint; without faults or obstacles it is carried out completely. */
    method Quarantine(plan: Plan, id: string, now: real) returns (a: Answer, results: seq<Path>)
      requires fs.Valid() && WellKept(store.records)
      modifies fs, store
      ensures fs.Valid() && WellKept(store.records) && old(fs.dirs) <= fs.dirs && old(fs.tick) <= fs.tick
      ensures OnlyAdds(old(fs.files), fs.files, Targets(plan))
      ensures Accounted(fs.sha, plan, old(fs.files), old(store.records), fs.files, store.records)
      ensures a == Answer(true) ==> Carried(fs.sha, plan, |plan|, results, old(fs.files), fs.files, store.records)
      ensures FreshPlan(fs.sha, old(fs.files), plan) && Unshared(old(store.records), plan) ==>
                && a != Threw(IntegrityError)
                && (Attestation(fs.sha, old(fs.files), old(store.records)) ==>
                      Attestation(fs.sha, fs.files, store.records))
      ensures old(fs.Sound()) && ClearPlan(boundary, plan, 0, old(fs.files), old(fs.dirs))
              && Unshared(old(store.records), plan)
              ==> a == Answer(true)
    {
      results := [];
      ghost var good := FreshPlan(fs.sha, fs.files, plan) && Unshared(store.records, plan);
      ghost var attested := good && Attestation(fs.sha, fs.files, store.records);
      ghost var smooth := fs.Sound() && ClearPlan(boundary, plan, 0, fs.files, fs.dirs)
                          && Unshared(store.records, plan);
      UnderwayStart(fs.sha, plan, fs.files, store.records);
      for n := 0 to |plan|
        invariant fs.Valid() && old(fs.dirs) <= fs.dirs && old(fs.tick) <= fs.tick
        invariant Underway(fs.sha, plan, n, results, old(fs.files), old(store.records), fs.files, store.records)
        invariant attested ==> Attestation(fs.sha, fs.files, store.records)
        invariant smooth ==> ClearPlan(boundary, plan, n, fs.files, fs.dirs)
      {
        a, results := QuarantineRound(plan, n, id, now, results, old(fs.files), old(store.records),
                                      good, attested, smooth);
        if a != Answer(true) {
          return;
        }
      }
      a := Answer(true);
    }

    /** One round of the loop of `quarantine`. */
    method QuarantineRound(plan: Plan, n: nat, id: string, now: real, results: seq<Path>,
                           ghost files0: map<Path, Bytes>, ghost records0: Records,
                           ghost good: bool, ghost attested: bool, ghost smooth: bool)
      returns (a: Answer, results': seq<Path>)
      requires fs.Valid() && n < |plan|
      requires Underway(fs.sha, plan, n, results, files0, records0, fs.files, store.records)
      requires good ==> FreshPlan(fs.sha, files0, plan) && Unshared(records0, plan)
      requires attested ==> good && Attestation(fs.sha, fs.files, store.records)
      requires smooth ==> fs.Sound() && Unshared(records0, plan) && ClearPlan(boundary, plan, n, fs.files, fs.dirs)
      modifies fs, store
      ensures fs.Valid() && WellKept(store.records) && old(fs.dirs) <= fs.dirs && old(fs.tick) <= fs.tick
      ensures OnlyAdds(files0, fs.files, Targets(plan))
      ensures Accounted(fs.sha, plan, files0, records0, fs.files, store.records)
      ensures a == Answer(true) ==>
        Underway(fs.sha, plan, n + 1, results', files0, records0, fs.files, store.records)
      ensures good ==> a != Threw(IntegrityError)
      ensures attested ==> Attestation(fs.sha, fs.files, store.records)
      ensures smooth ==> a == Answer(true) && ClearPlan(boundary, plan, n + 1, fs.files, fs.dirs)
    {
      if plan[n].action.Quarantine? {
        a := QuarantineStep(plan, n, id, now, results, files0, records0, good, attested, smooth);
        results' := if a == Answer(true) then results + [plan[n].quarantine] else results;
      } else {
        a, results' := Answer(true), results;
        UnderwaySkip(fs.sha, plan, n, results, files0, records0, fs.files, store.records);
      }
    }

    /** One QUARANTINE item of the plan. */
    method QuarantineStep(plan: Plan, n: nat, id: string, now: real, ghost results: seq<Path>,
                          ghost files0: map<Path, Bytes>,
                          ghost records0: Records, ghost good: bool, ghost attested: bool, ghost smooth: bool)
      returns (a: Answer)
      requires fs.Valid() && n < |plan| && plan[n].action.Quarantine?
      requires Underway(fs.sha, plan, n, results, files0, records0, fs.files, store.records)
      requires good ==> FreshPlan(fs.sha, files0, plan) && Unshared(records0, plan)
      requires attested ==> good && Attestation(fs.sha, fs.files, store.records)
      requires smooth ==> fs.Sound() && Unshared(records0, plan) && ClearPlan(boundary, plan, n, fs.files, fs.dirs)
      modifies fs, store
      ensures fs.Valid() && WellKept(store.records) && old(fs.dirs) <= fs.dirs && old(fs.tick) <= fs.tick
      ensures OnlyAdds(files0, fs.files, Targets(plan))
      ensures Accounted(fs.sha, plan, files0, records0, fs.files, store.records)
      ensures a == Answer(true) ==>
        Underway(fs.sha, plan, n + 1, results + [plan[n].quarantine], files0, records0, fs.files, store.records)
      ensures good ==> a != Threw(IntegrityError)
      ensures attested ==> Attestation(fs.sha, fs.files, store.records)
      ensures smooth ==> a == Answer(true) && ClearPlan(boundary, plan, n + 1, fs.files, fs.dirs)
    {
      ghost var files, records, dirs := fs.files, store.records, fs.dirs;
      assert plan[n].quarantine in Targets(plan);
      if (good || smooth) && plan[n].quarantine !in files {
        NeverShared(fs.sha, plan, n, files0, records0, files, records);
      }
      a := QuarantineOne(plan[n], id, now);
      if a == Threw(IntegrityError) {
        AccountedGrows(fs.sha, plan, n, files0, records0, files, fs.files, records);
      }
      if a == Answer(true) {
        UnderwayNext(fs.sha, plan, n, results, files0, records0, files, records, fs.files,
                     store.records[plan[n].source]);
      }
      if smooth {
        ClearPlanNext(boundary, plan, n, files, dirs, fs.files, fs.dirs);
      }
    }

    /** One PURGE_READY item: authorise the deletion, then unlink. */
    method PurgeOne(path: Path, id: string) returns (a: Answer)
      requires fs.Valid()
      modifies fs
      ensures fs.Valid() && fs.dirs == old(fs.dirs) && old(fs.tick) <= fs.tick
      ensures a == if !Safety.Untouched(boundary, [path]) then Answer(false)
                   else if path in old(fs.files) && !fs.fault(old(fs.tick)) then Answer(true)
                   else Threw(OsError)
      ensures fs.files == if a == Answer(true) then old(fs.files) - {path} else old(fs.files)
    {
      var receipt := Safety.ForPaths(Safety.Delete, [path], id);
      var decision := Safety.Authorize(boundary, Safety.Delete, [path], false, Some(receipt.value));
      Safety.IssuedReceiptScope(boundary, Safety.Delete, [path], [path], id);
      if !decision.allowed {
        return Answer(false);
      }
      var unlinked := fs.Unlink(path);
      if unlinked.Err? {
        return Threw(unlinked.error);
      }
      a := Answer(true);
    }

    /** Exactly the listed paths go, each unprotected and the copy of a PURGE_READY item; all of them when it
        answers true, which it does without faults on copies that are there, unprotected and distinct. */
    method Purge(plan: Plan, id: string) returns (a: Answer, removed: seq<Path>)
      requires fs.Valid()
      modifies fs
      ensures fs.Valid() && fs.dirs == old(fs.dirs) && old(fs.tick) <= fs.tick
      ensures fs.files == old(fs.files) - (set p | p in removed)
      ensures forall p :: p in removed ==>
                p in old(fs.files) && Safety.Untouched(boundary, [p]) && Ready(plan, |plan|, p)
      ensures a == Answer(true) ==> forall p :: Ready(plan, |plan|, p) ==> p in removed
      ensures old(fs.Sound()) && Purgeable(boundary, plan, 0, old(fs.files)) ==> a == Answer(true)
    {
      removed := [];
      ghost var smooth := fs.Sound() && Purgeable(boundary, plan, 0, fs.files);
      for n := 0 to |plan|
        invariant fs.Valid() && fs.dirs == old(fs.dirs) && old(fs.tick) <= fs.tick
        invariant fs.files == old(fs.files) - (set p | p in removed)
        invariant forall p :: p in removed ==>
                    p in old(fs.files) && Safety.Untouched(boundary, [p]) && Ready(plan, n, p)
        invariant forall p :: Ready(plan, n, p) ==> p in removed
        invariant smooth ==> Purgeable(boundary, plan, n, fs.files)
      {
        if plan[n].action == PurgeReady {
          var path := plan[n].quarantine;
          ghost var before := removed;
          a := PurgeOne(path, id);
          if a != Answer(true) {
            return;
          }
          assert (set p | p in before + [path]) == (set p | p in before) + {path};
          assert Ready(plan, n + 1, path);
          removed := removed + [path];
        }
      }
      a := Answer(true);
    }

    /** Nothing is overwritten; every RESTORE item is back when it answers true, which it does without faults
        when the copies are there with the recorded digests and nothing stands in their way. */
    method Restore(plan: Plan, id: string) returns (a: Answer, restored: seq<Path>)
      requires fs.Valid()
      modifies fs
      ensures fs.Valid() && old(fs.dirs) <= fs.dirs && old(fs.tick) <= fs.tick
      ensures OnlyAdds(old(fs.files), fs.files, Destinations(plan))
      ensures a == Answer(true) ==> RestoredSoFar(fs.sha, plan, |plan|, restored, fs.files)
      ensures old(fs.Sound()) && Restorable(fs.sha, boundary, plan, 0, old(fs.files), old(fs.dirs)) ==>
                a == Answer(true)
    {
      restored := [];
      ghost var smooth := fs.Sound() && Restorable(fs.sha, boundary, plan, 0, fs.files, fs.dirs);
      for n := 0 to |plan|
        invariant fs.Valid() && old(fs.dirs) <= fs.dirs && old(fs.tick) <= fs.tick
        invariant OnlyAdds(old(fs.files), fs.files, Destinations(plan))
        invariant RestoredSoFar(fs.sha, plan, n, restored, fs.files)
        invariant smooth ==> Restorable(fs.sha, boundary, plan, n, fs.files, fs.dirs)
      {
        if plan[n].action.Restore? {
          ghost var files, dirs := fs.files, fs.dirs;
          var destination := plan[n].destination;
          if destination.None? {
            return Answer(false), restored;
          }
          assert destination.value in Destinations(plan);
          a := RestoreOne(plan[n], destination.value, id);
          OnlyAddsTrans(old(fs.files), files, fs.files, destination.value, Destinations(plan));
          if a != Answer(true) {
            return;
          }
          RestoredStep(fs.sha, plan, n, restored, files, fs.files);
          if smooth {
            RestorableNext(fs.sha, boundary, plan, n, files, dirs, fs.files, fs.dirs);
          }
          restored := restored + [destination.value];
        }
      }
      a := Answer(true);
    }

    method RestoreOne(item: Item, destination: Path, id: string) returns (a: Answer)
      requires fs.Valid()
      modifies fs
      ensures fs.Valid() && old(fs.dirs) <= fs.dirs && old(fs.tick) <= fs.tick
      ensures forall d :: d in fs.dirs ==> d in old(fs.dirs) || d <= Parent(destination)
      ensures OnlyAdds(old(fs.files), fs.files, {destination})
      ensures a == Answer(true) ==>
        && destination !in old(fs.files) && destination in fs.files && item.sha == Some(fs.sha(fs.files[destination]))
        && fs.files == old(fs.files)[destination := fs.files[destination]]
      ensures old(fs.Sound()) && Clear(boundary, item.quarantine, destination, old(fs.files), old(fs.dirs))
              && item.sha == Some(fs.sha(old(fs.files)[item.quarantine]))
              ==> a == Answer(true) && fs.files[destination] == old(fs.files)[item.quarantine]
    {
      var digest: Option<Digest>;
      a, digest := CopyVerified(item.quarantine, destination, id);
      if a == Answer(true) && digest != item.sha {
        a := Answer(false);
      }
    }
  }

  /** `p` is the copy of a PURGE_READY item among the first `n`. */
  ghost predicate Ready(plan: Plan, n: nat, p: Path)
    requires n <= |plan|
  {
    exists k :: 0 <= k < n && plan[k].action == PurgeReady && plan[k].quarantine == p
  }

  /** From item `n` on every PURGE_READY copy is there and unprotected, and none is listed twice. */
  ghost predicate Purgeable(boundary: seq<Safety.Path>, plan: Plan, n: nat, files: map<Path, Bytes>) {
    && (forall k :: n <= k < |plan| && plan[k].action == PurgeReady ==>
          plan[k].quarantine in files && Safety.Untouched(boundary, [plan[k].quarantine]))
    && (forall i, j :: 0 <= i < j < |plan| && plan[i].action == PurgeReady && plan[j].action == PurgeReady ==>
          plan[i].quarantine != plan[j].quarantine)
  }

  /** From item `n` on every RESTORE copy is there with its recorded digest, none is obstructed, and none gets in
      the way of another. */
  ghost predicate Restorable(sha: Bytes -> Digest, boundary: seq<Safety.Path>, plan: Plan, n: nat,
                             files: map<Path, Bytes>, dirs: set<Path>)
  {
    && (forall k :: n <= k < |plan| && plan[k].action == Action.Restore ==>
          Recoverable(sha, boundary, plan[k], files, dirs))
    && (forall i, j :: 0 <= i < j < |plan| && plan[i].action == Action.Restore && plan[j].action == Action.Restore
                       && plan[i].destination.Some? && plan[j].destination.Some? ==>
          Apart(plan[i].destination.value, plan[j].destination.value))
  }

  ghost predicate Recoverable(sha: Bytes -> Digest, boundary: seq<Safety.Path>, item: Item,
                              files: map<Path, Bytes>, dirs: set<Path>)
  {
    && item.destination.Some? && Clear(boundary, item.quarantine, item.destination.value, files, dirs)
    && item.sha == Some(sha(files[item.quarantine]))
  }

  lemma RestorableNext(sha: Bytes -> Digest, boundary: seq<Safety.Path>, plan: Plan, n: nat, files: map<Path, Bytes>,
                       dirs: set<Path>, files': map<Path, Bytes>, dirs': set<Path>)
    requires n < |plan| && plan[n].action == Action.Restore && Restorable(sha, boundary, plan, n, files, dirs)
    requires var d := plan[n].destination.value; d !in files && d in files' && files' == files[d := files'[d]]
    requires forall d :: d in dirs' ==> d in dirs || d <= Parent(plan[n].destination.value)
    ensures Restorable(sha, boundary, plan, n + 1, files', dirs')
  {
    forall k | n + 1 <= k < |plan| && plan[k].action == Action.Restore
      ensures Recoverable(sha, boundary, plan[k], files', dirs')
    {
      assert Recoverable(sha, boundary, plan[k], files, dirs);
      StillUnobstructed(Spec(plan[k].quarantine, plan[k].destination.value, false), plan[n].destination.value,
                        files, dirs, files', dirs');
    }
  }

  /** Every RESTORE item among the first `n` is back, with the digest on record. */
  ghost predicate RestoredSoFar(sha: Bytes -> Digest, plan: Plan, n: nat, restored: seq<Path>, files: map<Path, Bytes>)
    requires n <= |plan|
  {
    forall k :: 0 <= k < n && plan[k].action == Restore ==>
      && plan[k].destination.Some? && plan[k].destination.value in restored
      && plan[k].destination.value in files && plan[k].sha == Some(sha(files[plan[k].destination.value]))
  }

  lemma RestoredStep(sha: Bytes -> Digest, plan: Plan, n: nat, restored: seq<Path>, files: map<Path, Bytes>,
                     files': map<Path, Bytes>)
    requires n < |plan| && RestoredSoFar(sha, plan, n, restored, files) && plan[n].destination.Some?
    requires forall p :: p in files ==> p in files' && files'[p] == files[p]
    requires plan[n].destination.value in files' && plan[n].sha == Some(sha(files'[plan[n].destination.value]))
    ensures RestoredSoFar(sha, plan, n + 1, restored + [plan[n].destination.value], files')
  {}

  lemma OnlyAddsTrans(a: map<Path, Bytes>, b: map<Path, Bytes>, c: map<Path, Bytes>, p: Path, places: set<Path>)
    requires OnlyAdds(a, b, places) && OnlyAdds(b, c, {p}) && p in places
    ensures OnlyAdds(a, c, places)
  {}

  function Destinations(plan: Plan): set<Path> {
    set k | 0 <= k < |plan| && plan[k].action.Restore? && plan[k].destination.Some? :: plan[k].destination.value
  }

  // ---------- reconciliation ----------

  datatype Finding = MissingQuarantine | CorruptQuarantine | LockedVerified | Verified

  /** What `reconcile` reports about a record, given what is on disk. */
  function Reconciled(sha: Bytes -> Digest, files: map<Path, Bytes>, r: Record): Finding {
    if r.quarantine !in files then MissingQuarantine
    else
      var content := files[r.quarantine];
      if !(|content| == r.size) || !(sha(content) == r.sha) then CorruptQuarantine
      else if r.locked then LockedVerified
      else Verified
  }

  /** The evidence invariant is what makes `reconcile` report no corruption. */
  lemma EvidenceMeansNoCorruption(sha: Bytes -> Digest, files: map<Path, Bytes>, records: Records)
    ensures Evidence(sha, files, records)
       <==> forall s :: s in records ==> Reconciled(sha, files, records[s]) != CorruptQuarantine
  {}

  /** An attested record is called corrupt only when its copy and its source are two different byte strings with
      one digest, of different lengths; so, where the digest separates these two, never. */
  lemma CorruptOnlyByCollision(sha: Bytes -> Digest, files: map<Path, Bytes>, r: Record)
    requires Attested(sha, files, r)
    ensures Reconciled(sha, files, r) == CorruptQuarantine
       <==> r.quarantine in files && |files[r.quarantine]| != r.size
    ensures Reconciled(sha, files, r) == CorruptQuarantine ==>
              r.source in files && |files[r.source]| != |files[r.quarantine]|
              && sha(files[r.source]) == sha(files[r.quarantine])
  {}
}
