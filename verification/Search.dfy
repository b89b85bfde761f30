/** The search index and the catalog it is derived from (teldrive_lab/search.py:75-116,
    teldrive_lab/catalog.py:110-125).  The index is rebuilt only when a four-field fingerprint of the catalog
    and the content table has changed; the question is when that is enough. */
module Search {
  import opened Base

  type RecordId = int

  /** The columns of the UNIQUE constraint. */
  datatype Identity = Identity(sourceType: string, sourceIdentifier: string, path: string)

  /** A catalog row; `unindexed` stands for the columns the index never reads.  Times are ordered stamps. */
  datatype File = File(identity: Identity, name: string, parentPath: Option<string>, extension: Option<string>,
                       mimeType: Option<string>, tags: Option<seq<string>>, modified: Option<int>,
                       firstSeen: int, lastSeen: int, unindexed: string)

  type Files = map<RecordId, File>

  datatype Text = Text(kind: string, content: string)

  /** One row of the full-text table. */
  datatype Row = Row(path: string, name: string, parentPath: Option<string>, extension: Option<string>,
                     mimeType: Option<string>, sourceIdentifier: string, tags: Option<seq<string>>, content: string)

  datatype Fingerprint = Fingerprint(count: nat, lastSeen: Option<int>, modified: Option<int>, contentCount: nat)

  const MAX_CONTENT_CHARS := 2_000_000
  const MAX_KIND_CHARS := 64

  // ---------- specification ----------

  function RowOf(f: File, content: string): Row {
    Row(f.identity.path, f.name, f.parentPath, f.extension, f.mimeType, f.identity.sourceIdentifier, f.tags, content)
  }

  /** The catalog left-joined with the content table. */
  function Expected(files: Files, content: map<RecordId, Text>): map<RecordId, Row> {
    map id | id in files :: Joined(files, content, id)
  }

  function Joined(files: Files, content: map<RecordId, Text>, id: RecordId): Row
    requires id in files
  {
    RowOf(files[id], if id in content then content[id].content else "")
  }

  ghost predicate IsMax(values: set<int>, m: Option<int>) {
    match m
    case None => values == {}
    case Some(x) => x in values && forall v :: v in values ==> v <= x
  }

  /** SQL's MAX: a null does not count. */
  function Later(m: Option<int>, x: int): Option<int> {
    if m.Some? && m.value >= x then m else Some(x)
  }

  lemma MaxAdd(values: set<int>, m: Option<int>, x: int)
    requires IsMax(values, m)
    ensures IsMax(values + {x}, Later(m, x))
  {}

  lemma MaxUnique(values: set<int>, m: Option<int>, n: Option<int>)
    requires IsMax(values, m) && IsMax(values, n)
    ensures m == n
  {}

  lemma NonEmpty(s: set<int>)
    requires s != {}
    ensures exists x :: x in s
  {
    assert (forall x :: x !in s) ==> s == {};
  }

  lemma {:induction false} MaxExists(values: set<int>) returns (m: Option<int>)
    ensures IsMax(values, m)
    decreases values
  {
    if values == {} {
      m := None;
    } else {
      NonEmpty(values);
      var x :| x in values;
      var rest := MaxExists(values - {x});
      MaxAdd(values - {x}, rest, x);
      assert values - {x} + {x} == values;
      m := Later(rest, x);
    }
  }

  ghost function MaxOf(values: set<int>): (m: Option<int>)
    ensures IsMax(values, m)
  {
    assert exists m :: IsMax(values, m) by { var m := MaxExists(values); }
    var m :| IsMax(values, m); m
  }

  function SeenIn(files: Files, ids: set<RecordId>): set<int> {
    set id | id in ids && id in files :: files[id].lastSeen
  }

  function ModifiedIn(files: Files, ids: set<RecordId>): set<int> {
    set id | id in ids && id in files && files[id].modified.Some? :: files[id].modified.value
  }

  ghost function Print(files: Files, content: map<RecordId, Text>): Fingerprint {
    Fingerprint(|files|, MaxOf(SeenIn(files, files.Keys)), MaxOf(ModifiedIn(files, files.Keys)), |content|)
  }

  /** No two rows share an identity, and new ids are above all ids in use. */
  ghost predicate Keyed(files: Files, next: RecordId) {
    && (forall i, j :: i in files && j in files && files[i].identity == files[j].identity ==> i == j)
    && (forall i :: i in files ==> 1 <= i < next)
    && next >= 1
  }

  ghost predicate Known(files: Files, identity: Identity) {
    exists id :: id in files && files[id].identity == identity
  }

  ghost function IdOf(files: Files, identity: Identity): (id: RecordId)
    requires Known(files, identity)
    ensures id in files && files[id].identity == identity
  {
    var id :| id in files && files[id].identity == identity; id
  }

  /** Everything kept in the database. */
  datatype Db = Db(files: Files, next: RecordId, content: map<RecordId, Text>, index: map<RecordId, Row>,
                   state: Option<Fingerprint>)

  const EMPTY := Db(map[], 1, map[], map[], None)

  datatype Op =
    | Upsert(record: File)
    | ResetCatalog
    | IndexContent(id: RecordId, text: string, kind: string)
    | RemoveContent(id: RecordId)
    | EnsureCurrent

  ghost predicate Current(db: Db) {
    db.state == Some(Print(db.files, db.content))
  }

  /** What the index is for. */
  ghost predicate Agrees(db: Db) {
    db.index == Expected(db.files, db.content)
  }

  ghost function Rebuilt(db: Db): Db {
    db.(index := Expected(db.files, db.content), state := Some(Print(db.files, db.content)))
  }

  predicate ContentAccepted(files: Files, id: RecordId, text: string, kind: string) {
    id >= 1 && |text| <= MAX_CONTENT_CHARS && 0 < |kind| <= MAX_KIND_CHARS && id in files
  }

  /** A known identity keeps its id and its first sighting; a new one gets the next id. */
  ghost function Stored(db: Db, record: File): Db {
    if Known(db.files, record.identity) then
      var id := IdOf(db.files, record.identity);
      db.(files := db.files[id := record.(firstSeen := db.files[id].firstSeen)])
    else db.(files := db.files[db.next := record], next := db.next + 1)
  }

  ghost function After(db: Db, op: Op): Db {
    match op
    case Upsert(record) => Stored(db, record)
    case ResetCatalog => db.(files := map[], next := 1)
    case IndexContent(id, text, kind) =>
      if ContentAccepted(db.files, id, text, kind) then Rebuilt(db.(content := db.content[id := Text(kind, text)]))
      else db
    case RemoveContent(id) => Rebuilt(db.(content := db.content - {id}))
    case EnsureCurrent => if Current(db) then db else Rebuilt(db)
  }

  ghost function AfterAll(db: Db, ops: seq<Op>): Db
    decreases |ops|
  {
    if ops == [] then db else After(AfterAll(db, ops[..|ops| - 1]), ops[|ops| - 1])
  }

  ghost predicate Maxima(files: Files, ids: set<RecordId>, lastSeen: Option<int>, modified: Option<int>) {
    IsMax(SeenIn(files, ids), lastSeen) && IsMax(ModifiedIn(files, ids), modified)
  }

  lemma MaximaAdd(files: Files, ids: set<RecordId>, lastSeen: Option<int>, modified: Option<int>, id: RecordId)
    requires id in files && Maxima(files, ids, lastSeen, modified)
    ensures Maxima(files, ids + {id}, Later(lastSeen, files[id].lastSeen),
                   if files[id].modified.Some? then Later(modified, files[id].modified.value) else modified)
  {
    assert SeenIn(files, ids + {id}) == SeenIn(files, ids) + {files[id].lastSeen};
    MaxAdd(SeenIn(files, ids), lastSeen, files[id].lastSeen);
    if files[id].modified.Some? {
      var at := files[id].modified.value;
      assert ModifiedIn(files, ids + {id}) == ModifiedIn(files, ids) + {at};
      MaxAdd(ModifiedIn(files, ids), modified, at);
    } else {
      assert ModifiedIn(files, ids + {id}) == ModifiedIn(files, ids);
    }
  }

  // ---------- the two classes ----------

  lemma StampsInWords(files: Files, lastSeen: Option<int>, modified: Option<int>)
    requires IsMax(SeenIn(files, files.Keys), lastSeen) && IsMax(ModifiedIn(files, files.Keys), modified)
    ensures lastSeen.None? <==> files == map[]
    ensures lastSeen.Some? ==>
      && (exists id :: id in files && files[id].lastSeen == lastSeen.value)
      && (forall id :: id in files ==> files[id].lastSeen <= lastSeen.value)
    ensures modified.None? <==> forall id :: id in files ==> files[id].modified.None?
    ensures modified.Some? ==>
      && (exists id :: id in files && files[id].modified == modified)
      && (forall id :: id in files && files[id].modified.Some? ==> files[id].modified.value <= modified.value)
  {
    forall id | id in files
      ensures files[id].lastSeen in SeenIn(files, files.Keys)
      ensures files[id].modified.Some? ==> files[id].modified.value in ModifiedIn(files, files.Keys)
    {}
    if files != map[] {
      var id :| id in files;
      assert files[id].lastSeen in SeenIn(files, files.Keys);
    }
  }

  class Catalog {
    var files: Files
    var next: RecordId

    constructor ()
      ensures files == map[] && next == 1
    {
      files, next := map[], 1;
    }

    method Upsert(record: File) returns (id: RecordId)
      requires Keyed(files, next)
      modifies this
      ensures Keyed(files, next)
      ensures var before := Db(old(files), old(next), map[], map[], None);
              Db(files, next, map[], map[], None) == Stored(before, record)
      ensures id in files && files[id].identity == record.identity && files[id].lastSeen == record.lastSeen
      ensures Known(old(files), record.identity) ==>
                id in old(files) && files[id].firstSeen == old(files)[id].firstSeen && next == old(next)
      ensures !Known(old(files), record.identity) ==> files[id] == record && id !in old(files)
      ensures if exists i :: i in old(files) && old(files)[i].identity == record.identity
              then files == old(files)[id := record.(firstSeen := old(files)[id].firstSeen)] && id in old(files)
              else files == old(files)[id := record] && id == old(next) && next == old(next) + 1
    {
      var left := files.Keys;
      while left != {}
        invariant left <= files.Keys && files == old(files) && next == old(next)
        invariant forall i :: i in files && i !in left ==> files[i].identity != record.identity
        decreases |left|
      {
        NonEmpty(left);
        var i :| i in left;
        left := left - {i};
        if files[i].identity == record.identity {
          files := files[i := record.(firstSeen := files[i].firstSeen)];
          return i;
        }
      }
      id := next;
      files, next := files[id := record], next + 1;
    }

    /** Drops and recreates the table, which restarts its ids; the search tables are not its own. */
    method Rebuild()
      modifies this
      ensures files == map[] && next == 1
    {
      files, next := map[], 1;
    }
  }

  class UnifiedSearch {
    const catalog: Catalog
    var content: map<RecordId, Text>
    var index: map<RecordId, Row>
    var state: Option<Fingerprint>

    ghost function Value(): Db
      reads this, catalog
    {
      Db(catalog.files, catalog.next, content, index, state)
    }

    constructor (catalog: Catalog)
      ensures this.catalog == catalog && content == map[] && index == map[] && state == None
    {
      this.catalog := catalog;
      content, index, state := map[], map[], None;
    }

    method TakeFingerprint() returns (f: Fingerprint)
      ensures f == Print(catalog.files, content)
      ensures f.count == |catalog.files| && f.contentCount == |content|
      ensures f.lastSeen.None? <==> catalog.files == map[]
      ensures f.lastSeen.Some? ==>
        && (exists id :: id in catalog.files && catalog.files[id].lastSeen == f.lastSeen.value)
        && (forall id :: id in catalog.files ==> catalog.files[id].lastSeen <= f.lastSeen.value)
      ensures f.modified.None? <==> forall id :: id in catalog.files ==> catalog.files[id].modified.None?
      ensures f.modified.Some? ==>
        && (exists id :: id in catalog.files && catalog.files[id].modified == f.modified)
        && (forall id :: id in catalog.files && catalog.files[id].modified.Some? ==>
              catalog.files[id].modified.value <= f.modified.value)
    {
      var files := catalog.files;
      var left, handled := files.Keys, {};
      var lastSeen: Option<int>, modified: Option<int> := None, None;
      while left != {}
        invariant handled + left == files.Keys
        invariant Maxima(files, handled, lastSeen, modified)
        decreases |left|
      {
        NonEmpty(left);
        var id :| id in left;
        MaximaAdd(files, handled, lastSeen, modified, id);
        lastSeen := Later(lastSeen, files[id].lastSeen);
        if files[id].modified.Some? {
          modified := Later(modified, files[id].modified.value);
        }
        left, handled := left - {id}, handled + {id};
      }
      assert handled == files.Keys;
      MaxUnique(SeenIn(files, files.Keys), lastSeen, MaxOf(SeenIn(files, files.Keys)));
      MaxUnique(ModifiedIn(files, files.Keys), modified, MaxOf(ModifiedIn(files, files.Keys)));
      f := Fingerprint(|files|, lastSeen, modified, |content|);
      StampsInWords(files, lastSeen, modified);
    }

    /** Delete every row, then insert the join. */
    method FillIndex()
      modifies this`index
      ensures index == Expected(catalog.files, content)
      ensures index.Keys == catalog.files.Keys
      ensures forall id :: id in catalog.files ==>
        var row, file := index[id], catalog.files[id];
        && row.path == file.identity.path && row.name == file.name && row.parentPath == file.parentPath
        && row.extension == file.extension && row.mimeType == file.mimeType
        && row.sourceIdentifier == file.identity.sourceIdentifier && row.tags == file.tags
        && row.content == if id in content then content[id].content else ""
    {
      var files, texts := catalog.files, content;
      var left, rows := files.Keys, map[];
      while left != {}
        invariant left <= files.Keys && rows.Keys == files.Keys - left
        invariant forall id :: id in rows ==> rows[id] == Joined(files, texts, id)
        decreases |left|
      {
        NonEmpty(left);
        var id :| id in left;
        left := left - {id};
        rows := rows[id := RowOf(files[id], if id in texts then texts[id].content else "")];
      }
      index := rows;
    }

    method Rebuild()
      modifies this`index, this`state
      ensures Value() == Rebuilt(old(Value()))
      ensures content == old(content) && Agrees(Value()) && Current(Value())
    {
      FillIndex();
      var f := TakeFingerprint();
      state := Some(f);
    }

    method EnsureCurrent() returns (rebuilt: bool)
      modifies this`index, this`state
      ensures Value() == After(old(Value()), Op.EnsureCurrent)
      ensures rebuilt == !Current(old(Value()))
      ensures content == old(content) && Current(Value())
      ensures if rebuilt then Agrees(Value()) else Value() == old(Value())
    {
      var f := TakeFingerprint();
      if state == Some(f) {
        return false;
      }
      Rebuild();
      rebuilt := true;
    }

    method IndexContent(id: RecordId, text: string, kind: string) returns (r: Result<(), Error>)
      modifies this
      ensures Value() == After(old(Value()), Op.IndexContent(id, text, kind))
      ensures r == if ContentAccepted(catalog.files, id, text, kind) then Ok(()) else Err(ValueError)
      ensures r.Ok? <==> id >= 1 && |text| <= 2_000_000 && 1 <= |kind| <= 64 && id in catalog.files
      ensures if r.Ok? then content == old(content)[id := Text(kind, text)] && Agrees(Value()) && Current(Value())
              else Value() == old(Value())
    {
      if id < 1 {
        return Err(ValueError);
      }
      if |text| > MAX_CONTENT_CHARS {
        return Err(ValueError);
      }
      if |kind| == 0 || |kind| > MAX_KIND_CHARS {
        return Err(ValueError);
      }
      if id !in catalog.files {
        return Err(ValueError);
      }
      content := content[id := Text(kind, text)];
      Rebuild();
      r := Ok(());
    }

    method RemoveContent(id: RecordId)
      modifies this
      ensures Value() == After(old(Value()), Op.RemoveContent(id))
      ensures content == old(content) - {id} && Agrees(Value()) && Current(Value())
    {
      content := content - {id};
      Rebuild();
    }
  }

  // ---------- agreement ----------

  /** Stamps up to `horizon` have been used. */
  ghost predicate Tracks(db: Db, horizon: int) {
    && Keyed(db.files, db.next)
    && (forall id :: id in db.files ==> db.files[id].lastSeen <= horizon)
    && (db.state.Some? ==>
          && (db.state.value.lastSeen.Some? ==> db.state.value.lastSeen.value <= horizon)
          && (db.state.value.count == 0 ==> db.index == map[])
          && (Current(db) ==> Agrees(db)))
  }

  /** The stamp after which every later upsert must come. */
  function Horizon(ops: seq<Op>, start: int): int
    decreases |ops|
  {
    if ops == [] then start
    else if ops[|ops| - 1].Upsert? then ops[|ops| - 1].record.lastSeen
    else Horizon(ops[..|ops| - 1], start)
  }

  /** Every upsert carries a `last_seen_at` later than all earlier ones. */
  ghost predicate EverLater(ops: seq<Op>, start: int)
    decreases |ops|
  {
    ops == [] ||
    var before, last := ops[..|ops| - 1], ops[|ops| - 1];
    EverLater(before, start) && (last.Upsert? ==> Horizon(before, start) < last.record.lastSeen)
  }

  lemma RebuiltTracks(db: Db, horizon: int)
    requires Keyed(db.files, db.next) && forall id :: id in db.files ==> db.files[id].lastSeen <= horizon
    ensures Tracks(Rebuilt(db), horizon) && Agrees(Rebuilt(db))
  {
    if |db.files| == 0 {
      assert db.files == map[];
      assert Expected(db.files, db.content) == map[];
    }
  }

  /** A later stamp always shows in the fingerprint. */
  lemma LaterShows(db: Db, record: File, horizon: int)
    requires Tracks(db, horizon) && horizon < record.lastSeen
    ensures Tracks(Stored(db, record), record.lastSeen) && !Current(Stored(db, record))
  {
    var next := Stored(db, record);
    var id := if Known(db.files, record.identity) then IdOf(db.files, record.identity) else db.next;
    var seen := SeenIn(next.files, next.files.Keys);
    assert id in next.files.Keys && next.files[id].lastSeen == record.lastSeen;
    assert record.lastSeen in seen;
    assert IsMax(seen, MaxOf(seen));
    assert MaxOf(seen).Some? && MaxOf(seen).value >= record.lastSeen;
  }

  lemma ResetTracks(db: Db, horizon: int)
    requires Tracks(db, horizon)
    ensures Tracks(After(db, ResetCatalog), horizon)
  {
    var next := After(db, ResetCatalog);
    if Current(next) {
      assert db.state.value.count == |next.files| == 0;
      assert Expected(next.files, next.content) == map[];
    }
  }

  lemma StepTracks(db: Db, op: Op, horizon: int)
    requires Tracks(db, horizon) && (op.Upsert? ==> horizon < op.record.lastSeen)
    ensures Tracks(After(db, op), if op.Upsert? then op.record.lastSeen else horizon)
  {
    match op
    case Upsert(record) => LaterShows(db, record, horizon);
    case ResetCatalog => ResetTracks(db, horizon);
    case IndexContent(id, text, kind) =>
      if ContentAccepted(db.files, id, text, kind) {
        RebuiltTracks(db.(content := db.content[id := Text(kind, text)]), horizon);
      }
    case RemoveContent(id) => RebuiltTracks(db.(content := db.content - {id}), horizon);
    case EnsureCurrent =>
      if !Current(db) {
        RebuiltTracks(db, horizon);
      }
  }

  lemma {:induction false} AlwaysTracks(db: Db, ops: seq<Op>, start: int)
    requires Tracks(db, start) && EverLater(ops, start)
    ensures Tracks(AfterAll(db, ops), Horizon(ops, start))
    decreases |ops|
  {
    if ops != [] {
      AlwaysTracks(db, ops[..|ops| - 1], start);
      StepTracks(AfterAll(db, ops[..|ops| - 1]), ops[|ops| - 1], Horizon(ops[..|ops| - 1], start));
    }
  }

  /** For every interleaving of upserts with ever later stamps, catalog resets, content edits and earlier
      refreshes, a refresh leaves the index equal to the catalog joined with the content. */
  lemma IndexAgreement(ops: seq<Op>, start: int)
    requires EverLater(ops, start)
    ensures Agrees(After(AfterAll(EMPTY, ops), EnsureCurrent))
  {
    AlwaysTracks(EMPTY, ops, start);
  }

  // ---------- when the stamp is not later ----------

  /** Storing a known file anew leaves what the index ought to be exactly when the indexed columns agree. */
  lemma ReplacedRow(db: Db, record: File)
    requires Keyed(db.files, db.next) && Known(db.files, record.identity)
    ensures Expected(Stored(db, record).files, db.content) == Expected(db.files, db.content)
       <==> RowOf(record, "") == RowOf(db.files[IdOf(db.files, record.identity)], "")
  {
    var next := Stored(db, record);
    var id := IdOf(db.files, record.identity);
    var text := if id in db.content then db.content[id].content else "";
    assert Expected(next.files, db.content)[id] == RowOf(record, text);
    assert Expected(db.files, db.content)[id] == RowOf(db.files[id], text);
    if RowOf(record, "") == RowOf(db.files[id], "") {
      assert RowOf(record, text) == RowOf(db.files[id], text);
      assert Expected(next.files, db.content) == Expected(db.files, db.content);
    }
  }

  /** Whatever its stamp, an upsert into an agreeing, current database is picked up by the next refresh
      exactly when it changes the fingerprint or none of the indexed columns. */
  lemma PickedUpIff(db: Db, record: File)
    requires Keyed(db.files, db.next) && Current(db) && Agrees(db)
    ensures Agrees(After(Stored(db, record), EnsureCurrent))
       <==> || !Known(db.files, record.identity)
            || Print(Stored(db, record).files, db.content) != Print(db.files, db.content)
            || RowOf(record, "") == RowOf(db.files[IdOf(db.files, record.identity)], "")
  {
    if Known(db.files, record.identity) {
      ReplacedRow(db, record);
    } else {
      assert |Stored(db, record).files| == |db.files| + 1;
    }
  }

  /** The failing family is not empty: renaming a file under the stamps it already had goes unnoticed. */
  lemma RenamedUnderOldStamp(identity: Identity, stamp: int)
    ensures var first := File(identity, "a", None, None, None, None, None, stamp, stamp, "");
            var ops := [Upsert(first), EnsureCurrent, Upsert(first.(name := "b")), EnsureCurrent];
            !Agrees(AfterAll(EMPTY, ops))
  {
    var first := File(identity, "a", None, None, None, None, None, stamp, stamp, "");
    var renamed := first.(name := "b");
    var one := Stored(EMPTY, first);
    assert !Known(EMPTY.files, identity);
    assert one.files == map[1 := first];
    var two := After(one, EnsureCurrent);
    assert Current(two) && two == Rebuilt(one);
    assert Known(two.files, identity) && IdOf(two.files, identity) == 1;
    var three := Stored(two, renamed);
    assert three.files == map[1 := renamed];
    assert SeenIn(three.files, three.files.Keys) == SeenIn(two.files, two.files.Keys);
    assert ModifiedIn(three.files, three.files.Keys) == ModifiedIn(two.files, two.files.Keys);
    PickedUpIff(two, renamed);
    var ops := [Upsert(first), EnsureCurrent, Upsert(renamed), EnsureCurrent];
    assert ops[..3] == [Upsert(first), EnsureCurrent, Upsert(renamed)] && ops[..2] == [Upsert(first), EnsureCurrent];
    Unrolled(EMPTY, Upsert(first), EnsureCurrent, Upsert(renamed), EnsureCurrent);
  }

  lemma Unrolled(db: Db, a: Op, b: Op, c: Op, d: Op)
    ensures AfterAll(db, [a, b, c, d]) == After(After(After(After(db, a), b), c), d)
  {
    assert [a, b, c, d][..3] == [a, b, c] && [a, b, c][..2] == [a, b] && [a, b][..1] == [a] && [a][..0] == [];
    assert AfterAll(db, [a]) == After(db, a);
    assert AfterAll(db, [a, b]) == After(After(db, a), b);
  }

  // ---------- content belongs to its record ----------

  /** `id` has denoted the same file throughout. */
  ghost predicate SameFile(files: Files, later: Files, id: RecordId) {
    id in files ==>
      id in later && later[id].identity == files[id].identity && later[id].firstSeen == files[id].firstSeen
  }

  lemma StoredKeepsFiles(db: Db, record: File, id: RecordId)
    requires Keyed(db.files, db.next)
    ensures var end := Stored(db, record);
            Keyed(end.files, end.next) && db.files.Keys <= end.files.Keys && SameFile(db.files, end.files, id)
  {}

  lemma ContentNeedsFile(db: Db, op: Op)
    requires db.content.Keys <= db.files.Keys && !op.ResetCatalog? && !op.Upsert?
    ensures var end := After(db, op);
            end.files == db.files && end.next == db.next && end.content.Keys <= db.files.Keys
  {}

  lemma OpKeepsFiles(db: Db, op: Op, id: RecordId)
    requires Keyed(db.files, db.next) && db.content.Keys <= db.files.Keys && !op.ResetCatalog?
    ensures var end := After(db, op);
            Keyed(end.files, end.next) && end.content.Keys <= end.files.Keys && SameFile(db.files, end.files, id)
  {
    if op.Upsert? {
      StoredKeepsFiles(db, op.record, id);
    } else {
      ContentNeedsFile(db, op);
    }
  }

  /** Without a catalog reset, every content row belongs to a catalog row, and an id never changes the file it
      denotes, so the text indexed for a record is text that was given for it. */
  lemma {:induction false} ContentStaysWithItsFile(db: Db, ops: seq<Op>, id: RecordId)
    requires Keyed(db.files, db.next) && db.content.Keys <= db.files.Keys
    requires forall k :: 0 <= k < |ops| ==> !ops[k].ResetCatalog?
    ensures var end := AfterAll(db, ops);
            Keyed(end.files, end.next) && end.content.Keys <= end.files.Keys && SameFile(db.files, end.files, id)
    decreases |ops|
  {
    if ops != [] {
      var before := ops[..|ops| - 1];
      forall k | 0 <= k < |before| ensures !before[k].ResetCatalog? {
        assert before[k] == ops[k];
      }
      ContentStaysWithItsFile(db, before, id);
      OpKeepsFiles(AfterAll(db, before), ops[|ops| - 1], id);
    }
  }

  /** With one, the next file takes id 1, and with it whatever text was given for the file that had id 1
      before: the index is right about the new file exactly when record 1 had no text. */
  lemma ResetHandsTextOver(db: Db, record: File, horizon: int)
    requires Tracks(db, horizon) && horizon < record.lastSeen
    ensures var end := After(After(After(db, ResetCatalog), Upsert(record)), EnsureCurrent);
      && end.files == map[1 := record]
      && end.index == map[1 := RowOf(record, if 1 in db.content then db.content[1].content else "")]
      && (end.index[1] == RowOf(record, "") <==> (1 in db.content ==> db.content[1].content == ""))
  {
    var reset := After(db, ResetCatalog);
    ResetTracks(db, horizon);
    assert !Known(reset.files, record.identity);
    LaterShows(reset, record, horizon);
    var stored := Stored(reset, record);
    assert stored.files == map[1 := record];
    assert Expected(stored.files, db.content) == map[1 := Joined(stored.files, db.content, 1)];
  }
}
