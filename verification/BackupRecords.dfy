/** Durable backup metadata (teldrive_lab/backups.py, `BackupStore`): what `put`, `lock` and `plans` keep. */
module BackupRecords {
  import opened Base

  type Digest = string

  datatype BackupItem = BackupItem(source: string, destination: string, size: nat, sha: Digest)

  datatype BackupPlan = BackupPlan(items: seq<BackupItem>, manifest: string, createdAt: real, purgeAfter: real)

  datatype Header = Header(manifest: string, createdAt: real, purgeAfter: real, locked: bool)

  /** The two tables: one header per digest, one item row per (digest, source). */
  datatype Tables = Tables(headers: map<Digest, Header>, rows: map<Digest, map<string, BackupItem>>)

  function SourceOf(i: BackupItem): string { i.source }

  ghost predicate StrictlySorted(items: seq<BackupItem>) {
    Sorted(items, SourceOf) && Distinct(items, SourceOf)
  }

  /** INSERT OR REPLACE of the items, in order. */
  function Inserted(rows: map<string, BackupItem>, items: seq<BackupItem>): map<string, BackupItem> {
    if items == [] then rows
    else
      var last := items[|items| - 1];
      Inserted(rows, items[..|items| - 1])[last.source := last]
  }

  function RowsOf(t: Tables, d: Digest): map<string, BackupItem> {
    if d in t.rows then t.rows[d] else map[]
  }

  function PutInto(t: Tables, d: Digest, p: BackupPlan): Tables {
    Tables(t.headers[d := Header(p.manifest, p.createdAt, p.purgeAfter, false)],
           t.rows[d := Inserted(RowsOf(t, d), p.items)])
  }

  function LockIn(t: Tables, d: Digest): Tables {
    if d in t.headers then t.(headers := t.headers[d := t.headers[d].(locked := true)]) else t
  }

  /** `items` is what SELECT ... ORDER BY source returns. */
  ghost predicate ReadsBack(rows: map<string, BackupItem>, items: seq<BackupItem>) {
    && StrictlySorted(items)
    && (forall k :: 0 <= k < |items| ==> items[k].source in rows && rows[items[k].source] == items[k])
    && (forall s :: s in rows ==> exists k :: 0 <= k < |items| && items[k] == rows[s])
  }

  /** The plan that `plans()` rebuilds for row `d`. */
  ghost predicate Rebuilt(t: Tables, d: Digest, p: BackupPlan) {
    && d in t.headers
    && p.manifest == t.headers[d].manifest && p.createdAt == t.headers[d].createdAt
       && p.purgeAfter == t.headers[d].purgeAfter
    && ReadsBack(RowsOf(t, d), p.items)
  }

  predicate IsLocked(t: Tables, d: Digest) { d in t.headers && t.headers[d].locked }

  /** What `retention_ready` filters by: the plan is past its time and its own digest is not locked. */
  predicate Due(t: Tables, digest: BackupPlan -> Digest, p: BackupPlan, now: real) {
    p.purgeAfter <= now && !IsLocked(t, digest(p))
  }

  /** Plan number `k` is the one rebuilt from row number `k`; no row comes twice, and older plans come first. */
  ghost predicate Read(t: Tables, from: seq<Digest>, plans: seq<BackupPlan>) {
    && |from| == |plans| && Distinct(from, Self)
    && (forall k :: 0 <= k < |plans| ==> Rebuilt(t, from[k], plans[k]))
    && (forall i, j :: 0 <= i < j < |plans| ==> plans[i].createdAt <= plans[j].createdAt)
  }

  ghost predicate NotDue(t: Tables, digest: BackupPlan -> Digest, d: Digest, now: real) {
    exists p :: Rebuilt(t, d, p) && !Due(t, digest, p, now)
  }

  /** The plans due, each once for every row it is rebuilt from. */
  ghost predicate Listing(t: Tables, digest: BackupPlan -> Digest, now: real, from: seq<Digest>,
                          ready: seq<BackupPlan>)
  {
    && Read(t, from, ready)
    && (forall k :: 0 <= k < |ready| ==> Due(t, digest, ready[k], now))
    && (forall d :: d in t.headers && d !in from ==> NotDue(t, digest, d, now))
  }

  /** A row whose plan was created first among these. */
  predicate Earliest(headers: map<Digest, Header>, left: set<Digest>, d: Digest) {
    && d in left && d in headers
    && forall e :: e in left && e in headers ==> headers[d].createdAt <= headers[e].createdAt
  }

  lemma {:induction false} SomeIsEarliest(headers: map<Digest, Header>, left: set<Digest>)
    requires left != {} && left <= headers.Keys
    ensures exists d :: Earliest(headers, left, d)
    decreases |left|
  {
    var d :| d in left;
    var rest := left - {d};
    if rest == {} {
      assert left == {d};
      assert Earliest(headers, left, d);
    } else {
      SomeIsEarliest(headers, rest);
      var e :| Earliest(headers, rest, e);
      assert left == rest + {d};
      assert Earliest(headers, left, if headers[d].createdAt <= headers[e].createdAt then d else e);
    }
  }

  /** No later item has the same source. */
  predicate IsLast(items: seq<BackupItem>, k: nat)
    requires k < |items|
  {
    forall j :: k < j < |items| ==> items[j].source != items[k].source
  }

  predicate Unlisted(items: seq<BackupItem>, s: string) {
    forall k :: 0 <= k < |items| ==> items[k].source != s
  }

  /** The last item of a source is what stays. */
  lemma {:induction false} LastItemStays(rows: map<string, BackupItem>, items: seq<BackupItem>, k: nat)
    requires k < |items| && IsLast(items, k)
    ensures items[k].source in Inserted(rows, items) && Inserted(rows, items)[items[k].source] == items[k]
  {
    var n := |items| - 1;
    if k < n {
      assert items[..n][k] == items[k] && items[n].source != items[k].source;
      LastItemStays(rows, items[..n], k);
    }
  }

  /** Rows of other sources are kept. */
  lemma {:induction false} OtherRowsStay(rows: map<string, BackupItem>, items: seq<BackupItem>, s: string)
    requires Unlisted(items, s)
    ensures s in Inserted(rows, items) <==> s in rows
    ensures s in rows ==> Inserted(rows, items)[s] == rows[s]
  {
    if items != [] {
      OtherRowsStay(rows, items[..|items| - 1], s);
    }
  }

  class BackupStore {
    const digest: BackupPlan -> Digest
    var headers: map<Digest, Header>
    var rows: map<Digest, map<string, BackupItem>>

    constructor (digest: BackupPlan -> Digest)
      ensures Valid() && this.digest == digest && headers == map[] && rows == map[]
    {
      this.digest, headers, rows := digest, map[], map[];
    }

    /** PRIMARY KEY(digest, source). */
    ghost predicate Valid()
      reads this
    {
      forall d, s :: d in rows && s in rows[d] ==> rows[d][s].source == s
    }

    function State(): Tables
      reads this
    {
      Tables(headers, rows)
    }

    method Put(p: BackupPlan)
      modifies this
      ensures State() == PutInto(old(State()), digest(p), p)
      ensures old(Valid()) ==> Valid()
      ensures headers == old(headers)[digest(p) := Header(p.manifest, p.createdAt, p.purgeAfter, false)]
      ensures forall d :: d != digest(p) ==> (d in rows <==> d in old(rows)) && (d in rows ==> rows[d] == old(rows)[d])
      ensures digest(p) in rows
      ensures forall k :: 0 <= k < |p.items| && IsLast(p.items, k) ==>
                p.items[k].source in rows[digest(p)] && rows[digest(p)][p.items[k].source] == p.items[k]
      ensures forall s :: Unlisted(p.items, s) ==>
        && (s in rows[digest(p)] <==> digest(p) in old(rows) && s in old(rows)[digest(p)])
        && (s in rows[digest(p)] ==> rows[digest(p)][s] == old(rows)[digest(p)][s])
    {
      var d := digest(p);
      headers := headers[d := Header(p.manifest, p.createdAt, p.purgeAfter, false)];
      var items := if d in rows then rows[d] else map[];
      for k := 0 to |p.items|
        invariant items == Inserted(RowsOf(old(State()), d), p.items[..k])
        invariant rows == old(rows)
        invariant old(Valid()) ==> forall s :: s in items ==> items[s].source == s
      {
        items := items[p.items[k].source := p.items[k]];
        assert p.items[..k + 1][..k] == p.items[..k];
      }
      assert p.items[..|p.items|] == p.items;
      rows := rows[d := items];
      ghost var kept := RowsOf(old(State()), d);
      forall k | 0 <= k < |p.items| && IsLast(p.items, k)
        ensures p.items[k].source in items && items[p.items[k].source] == p.items[k]
      {
        LastItemStays(kept, p.items, k);
      }
      forall s | Unlisted(p.items, s)
        ensures (s in items <==> s in kept) && (s in kept ==> items[s] == kept[s])
      {
        OtherRowsStay(kept, p.items, s);
      }
    }

    method Lock(d: Digest) returns (r: Result<(), Error>)
      modifies this
      ensures r == if d in old(headers) then Ok(()) else Err(KeyError)
      ensures rows == old(rows)
      ensures headers == if d in old(headers) then old(headers)[d := old(headers)[d].(locked := true)] else old(headers)
      ensures State() == LockIn(old(State()), d)
      ensures old(Valid()) ==> Valid()
    {
      if d !in headers {
        return Err(KeyError);
      }
      headers := headers[d := headers[d].(locked := true)];
      r := Ok(());
    }

    method Items(d: Digest) returns (items: seq<BackupItem>)
      requires Valid()
      ensures ReadsBack(RowsOf(State(), d), items)
      ensures forall i, j :: 0 <= i < j < |items| ==>
                items[i].source != items[j].source && Leq(items[i].source, items[j].source)
    {
      var table := if d in rows then rows[d] else map[];
      assert table == RowsOf(State(), d);
      var left := table.Keys;
      items := [];
      while left != {}
        invariant left <= table.Keys
        invariant forall k :: 0 <= k < |items| ==>
                    items[k].source in table && items[k].source !in left && table[items[k].source] == items[k]
        invariant forall s :: s in table && s !in left ==> table[s] in items
        invariant Distinct(items, SourceOf)
        decreases |left|
      {
        var s :| s in left;
        left := left - {s};
        items := items + [table[s]];
      }
      SortSorted(items, SourceOf);
      SortKeepsDistinct(items, SourceOf, SourceOf);
      SortMembers(items, SourceOf);
      items := Sort(items, SourceOf);
      assert forall i, j :: 0 <= i < j < |items| ==>
               SourceOf(items[i]) != SourceOf(items[j]) && Leq(SourceOf(items[i]), SourceOf(items[j]));
      forall k | 0 <= k < |items| ensures items[k].source in table && table[items[k].source] == items[k] {
        assert items[k] in items;
      }
      forall s | s in table ensures exists k :: 0 <= k < |items| && items[k] == table[s] {
        assert table[s] in items;
      }
    }

    /** `plans()`: every row's plan, ordered by creation time; SQL leaves ties open. */
    method Plans() returns (plans: seq<BackupPlan>, ghost from: seq<Digest>)
      requires Valid()
      ensures Read(State(), from, plans)
      ensures forall d :: d in from <==> d in headers
    {
      var left := headers.Keys;
      plans, from := [], [];
      while left != {}
        invariant left <= headers.Keys
        invariant Read(State(), from, plans)
        invariant forall d :: d in from <==> d in headers && d !in left
        invariant forall k, d :: 0 <= k < |plans| && d in left ==> plans[k].createdAt <= headers[d].createdAt
        decreases |left|
      {
        SomeIsEarliest(headers, left);
        var d :| d in left && Earliest(headers, left, d);
        var items := Items(d);
        var h := headers[d];
        var p := BackupPlan(items, h.manifest, h.createdAt, h.purgeAfter);
        ReadNext(State(), from, plans, d, p);
        left := left - {d};
        plans, from := plans + [p], from + [d];
      }
    }

    /** The plans that are past their time and whose own digest, recomputed, is not locked. */
    method RetentionReady(now: real) returns (ready: seq<BackupPlan>, ghost from: seq<Digest>)
      requires Valid()
      ensures Listing(State(), digest, now, from, ready)
      ensures forall k :: 0 <= k < |ready| ==>
        && ready[k].purgeAfter <= now
        && !(digest(ready[k]) in headers && headers[digest(ready[k])].locked)
      ensures forall d :: d in headers && d !in from ==>
        exists p :: Rebuilt(State(), d, p)
                    && (p.purgeAfter > now || (digest(p) in headers && headers[digest(p)].locked))
    {
      var plans;
      ghost var rows;
      plans, rows := Plans();
      ready, from := [], [];
      for k := 0 to |plans|
        invariant Filtered(State(), digest, now, rows, plans, k, from, ready)
      {
        var p := plans[k];
        FilterNext(State(), digest, now, rows, plans, k, from, ready);
        if p.purgeAfter <= now && !(digest(p) in headers && headers[digest(p)].locked) {
          ready, from := ready + [p], from + [rows[k]];
        }
      }
      forall d | d in headers && d !in from
        ensures exists p :: Rebuilt(State(), d, p)
                            && (p.purgeAfter > now || (digest(p) in headers && headers[digest(p)].locked))
      {
        assert NotDue(State(), digest, d, now);
      }
    }
  }

  lemma ReadNext(t: Tables, from: seq<Digest>, plans: seq<BackupPlan>, d: Digest, p: BackupPlan)
    requires Read(t, from, plans) && d !in from && Rebuilt(t, d, p)
    requires forall k :: 0 <= k < |plans| ==> plans[k].createdAt <= p.createdAt
    ensures Read(t, from + [d], plans + [p])
  {
    forall i, j | 0 <= i < j < |from + [d]| ensures Self((from + [d])[i]) != Self((from + [d])[j]) {
      if j < |from| {
        assert Self(from[i]) != Self(from[j]);
      } else {
        assert from[i] in from;
      }
    }
  }

  ghost predicate Among(rows: seq<Digest>, k: nat, d: Digest)
    requires k <= |rows|
  {
    exists j :: 0 <= j < k && rows[j] == d
  }

  /** The filter applied to the first `k` plans. */
  ghost predicate Filtered(t: Tables, digest: BackupPlan -> Digest, now: real, rows: seq<Digest>,
                           plans: seq<BackupPlan>, k: nat, from: seq<Digest>, ready: seq<BackupPlan>)
  {
    && |rows| == |plans| && k <= |plans| && Read(t, from, ready)
    && (forall i :: 0 <= i < |ready| ==> Due(t, digest, ready[i], now))
    && (forall i :: 0 <= i < |from| ==> Among(rows, k, from[i]))
    && (forall j :: 0 <= j < k && rows[j] !in from ==> NotDue(t, digest, rows[j], now))
  }

  lemma FilterNext(t: Tables, digest: BackupPlan -> Digest, now: real, rows: seq<Digest>, plans: seq<BackupPlan>,
                   k: nat, from: seq<Digest>, ready: seq<BackupPlan>)
    requires Read(t, rows, plans) && k < |plans| && Filtered(t, digest, now, rows, plans, k, from, ready)
    ensures if Due(t, digest, plans[k], now)
            then Filtered(t, digest, now, rows, plans, k + 1, from + [rows[k]], ready + [plans[k]])
            else Filtered(t, digest, now, rows, plans, k + 1, from, ready)
  {
    if Due(t, digest, plans[k], now) {
      forall i | 0 <= i < |from| ensures from[i] != rows[k] {
        assert Among(rows, k, from[i]);
        var j :| 0 <= j < k && rows[j] == from[i];
        assert Self(rows[j]) != Self(rows[k]);
      }
      ReadNext(t, from, ready, rows[k], plans[k]);
    }
  }

  lemma RebuiltOnce(t: Tables, d: Digest, p: BackupPlan, q: BackupPlan)
    requires Rebuilt(t, d, p) && Rebuilt(t, d, q)
    ensures p == q
  {
    var rows := RowsOf(t, d);
    forall x ensures x in p.items <==> x in q.items {
      if x in p.items {
        assert x.source in rows && rows[x.source] == x;
      }
      if x in q.items {
        assert x.source in rows && rows[x.source] == x;
      }
    }
    SortedItemsUnique(p.items, q.items);
  }

  lemma SomeRebuilt(t: Tables, digest: BackupPlan -> Digest, now: real, from: seq<Digest>, ready: seq<BackupPlan>,
                    d: Digest) returns (p: BackupPlan)
    requires Listing(t, digest, now, from, ready) && d in t.headers
    ensures Rebuilt(t, d, p)
  {
    if d in from {
      var k :| 0 <= k < |from| && from[k] == d;
      p := ready[k];
    } else {
      p :| Rebuilt(t, d, p) && !Due(t, digest, p, now);
    }
  }

  /** A plan is listed exactly when it is due and rebuilt from some row. */
  lemma ListedIff(t: Tables, digest: BackupPlan -> Digest, now: real, from: seq<Digest>, ready: seq<BackupPlan>,
                  p: BackupPlan)
    requires Listing(t, digest, now, from, ready)
    ensures p in ready <==> Due(t, digest, p, now) && exists d :: Rebuilt(t, d, p)
  {
    if p in ready {
      var k :| 0 <= k < |ready| && ready[k] == p;
      assert Rebuilt(t, from[k], p);
    }
    if d :| Due(t, digest, p, now) && Rebuilt(t, d, p) {
      var k := ListedFrom(t, digest, now, from, ready, d, p);
    }
  }

  lemma ListedFrom(t: Tables, digest: BackupPlan -> Digest, now: real, from: seq<Digest>, ready: seq<BackupPlan>,
                   d: Digest, p: BackupPlan) returns (k: nat)
    requires Listing(t, digest, now, from, ready) && Rebuilt(t, d, p) && Due(t, digest, p, now)
    ensures k < |ready| && from[k] == d && ready[k] == p
  {
    if d !in from {
      var q :| Rebuilt(t, d, q) && !Due(t, digest, q, now);
      RebuiltOnce(t, d, p, q);
    }
    k :| 0 <= k < |from| && from[k] == d;
    RebuiltOnce(t, d, p, ready[k]);
  }

  /** And it is listed twice exactly when it is rebuilt from two rows. */
  lemma ListedTwiceIff(t: Tables, digest: BackupPlan -> Digest, now: real, from: seq<Digest>,
                       ready: seq<BackupPlan>, p: BackupPlan)
    requires Listing(t, digest, now, from, ready) && Due(t, digest, p, now)
    ensures (exists i, j :: 0 <= i < j < |ready| && ready[i] == ready[j] == p)
       <==> exists d, e :: d != e && Rebuilt(t, d, p) && Rebuilt(t, e, p)
  {
    if i, j :| 0 <= i < j < |ready| && ready[i] == ready[j] == p {
      assert Self(from[i]) != Self(from[j]);
      assert Rebuilt(t, from[i], p) && Rebuilt(t, from[j], p);
    }
    if d, e :| d != e && Rebuilt(t, d, p) && Rebuilt(t, e, p) {
      var i := ListedFrom(t, digest, now, from, ready, d, p);
      var j := ListedFrom(t, digest, now, from, ready, e, p);
      assert ready[if i < j then i else j] == ready[if i < j then j else i] == p;
    }
  }

  // ---------- the round trip ----------

  lemma {:induction false} InsertedRows(rows: map<string, BackupItem>, items: seq<BackupItem>)
    requires Distinct(items, SourceOf)
    ensures forall k :: 0 <= k < |items| ==>
              items[k].source in Inserted(rows, items) && Inserted(rows, items)[items[k].source] == items[k]
    ensures forall s :: s in Inserted(rows, items) ==> (s in rows && Inserted(rows, items)[s] == rows[s])
                                                       || exists k :: 0 <= k < |items| && items[k].source == s
  {
    if items != [] {
      InsertedRows(rows, items[..|items| - 1]);
    }
  }

  lemma FirstOfSorted(items: seq<BackupItem>, x: BackupItem)
    requires StrictlySorted(items) && x in items
    ensures Leq(items[0].source, x.source)
  {
    var k :| 0 <= k < |items| && items[k] == x;
    if k == 0 {
      LeqTotal(x.source, x.source);
    } else {
      assert Leq(SourceOf(items[0]), SourceOf(items[k]));
    }
  }

  lemma SortedTails(items: seq<BackupItem>)
    requires StrictlySorted(items) && items != []
    ensures StrictlySorted(items[1..])
  {}

  /** Strictly sorted item lists with the same elements are equal. */
  lemma {:induction false} SortedItemsUnique(a: seq<BackupItem>, b: seq<BackupItem>)
    requires StrictlySorted(a) && StrictlySorted(b)
    requires forall x :: x in a <==> x in b
    ensures a == b
    decreases |a|
  {
    if a == [] {
      if b != [] { HasMember(b); }
    } else {
      assert a[0] in b && (b != [] ==> b[0] in a);
      FirstOfSorted(a, b[0]);
      FirstOfSorted(b, a[0]);
      LeqAntisymmetric(a[0].source, b[0].source);
      SameFirst(a, b);
      SortedTails(a);
      SortedTails(b);
      forall x ensures x in a[1..] <==> x in b[1..] {
        InTail(a, x);
        InTail(b, x);
      }
      SortedItemsUnique(a[1..], b[1..]);
      assert a == [a[0]] + a[1..] && b == [b[0]] + b[1..];
    }
  }

  lemma HasMember<T>(s: seq<T>)
    requires s != []
    ensures exists x :: x in s
  {
    assert s[0] in s;
  }

  lemma SameFirst(a: seq<BackupItem>, b: seq<BackupItem>)
    requires StrictlySorted(a) && a != [] && b != [] && b[0] in a && a[0].source == b[0].source
    ensures a[0] == b[0]
  {
    var k :| 0 <= k < |a| && a[k] == b[0];
  }

  lemma InTail(a: seq<BackupItem>, x: BackupItem)
    requires StrictlySorted(a) && a != []
    ensures x in a[1..] <==> x in a && x != a[0]
  {
    if x in a[1..] {
      var k :| 0 <= k < |a[1..]| && a[1..][k] == x;
      assert a[k + 1] == x && a[0].source != a[k + 1].source;
    }
    if x in a && x != a[0] {
      var k :| 0 <= k < |a| && a[k] == x;
      assert a[1..][k - 1] == x;
    }
  }

  /** A freshly put plan is read back as the very same plan exactly when its items are strictly sorted by
      source; the planner sorts by the paths as given, not as resolved, so this is not automatic. */
  lemma ReadBackIff(t: Tables, d: Digest, p: BackupPlan, q: BackupPlan)
    requires d !in t.headers && d !in t.rows && Rebuilt(PutInto(t, d, p), d, q)
    ensures q == p <==> StrictlySorted(p.items)
  {
    if StrictlySorted(p.items) {
      InsertedRows(map[], p.items);
      var rows := Inserted(map[], p.items);
      assert RowsOf(PutInto(t, d, p), d) == rows;
      forall x ensures x in p.items <==> x in q.items {
        if x in p.items {
          var k :| 0 <= k < |p.items| && p.items[k] == x;
          assert rows[x.source] == x;
        }
        if x in q.items {
          var k :| 0 <= k < |q.items| && q.items[k] == x;
          assert x.source in rows && rows[x.source] == x;
          var m :| 0 <= m < |p.items| && p.items[m].source == x.source;
          assert rows[p.items[m].source] == p.items[m];
        }
      }
      SortedItemsUnique(p.items, q.items);
    }
  }

  // ---------- runs ----------

  datatype Op = PutOp(plan: BackupPlan) | LockOp(target: Digest)

  function After(digest: BackupPlan -> Digest, ops: seq<Op>): Tables {
    if ops == [] then Tables(map[], map[])
    else
      var before, op := After(digest, ops[..|ops| - 1]), ops[|ops| - 1];
      match op
      case PutOp(p) => PutInto(before, digest(p), p)
      case LockOp(d) => LockIn(before, d)
  }

  /** No plan is put twice. */
  predicate FreshPuts(digest: BackupPlan -> Digest, ops: seq<Op>) {
    ops == [] ||
    var init, op := ops[..|ops| - 1], ops[|ops| - 1];
    FreshPuts(digest, init) && (op.PutOp? ==> digest(op.plan) !in After(digest, init).headers)
  }

  predicate LockedBy(ops: seq<Op>, d: Digest, from: nat) {
    exists k :: from <= k < |ops| && ops[k] == LockOp(d)
  }

  /** The row of `d` is what the put at position `k` left, locked if that digest was locked after it. */
  ghost predicate PutAt(digest: BackupPlan -> Digest, ops: seq<Op>, d: Digest, k: nat)
    requires k < |ops|
  {
    var t := After(digest, ops);
    && ops[k].PutOp? && digest(ops[k].plan) == d
    && d in t.headers && d in t.rows
    && t.headers[d] == Header(ops[k].plan.manifest, ops[k].plan.createdAt, ops[k].plan.purgeAfter, LockedBy(ops, d, k))
    && t.rows[d] == Inserted(map[], ops[k].plan.items)
  }

  /** Every row comes from exactly one put, and is locked exactly when that digest was locked after it. */
  ghost predicate Traced(digest: BackupPlan -> Digest, ops: seq<Op>, d: Digest) {
    var t := After(digest, ops);
    && (d in t.rows <==> d in t.headers)
    && (d in t.headers ==> exists k :: 0 <= k < |ops| && PutAt(digest, ops, d, k))
  }

  lemma {:induction false} AlwaysTraced(digest: BackupPlan -> Digest, ops: seq<Op>, d: Digest)
    requires FreshPuts(digest, ops)
    ensures Traced(digest, ops, d)
  {
    if ops != [] {
      var n := |ops| - 1;
      var init, op := ops[..n], ops[n];
      AlwaysTraced(digest, init, d);
      var before, t := After(digest, init), After(digest, ops);
      if op.PutOp? && digest(op.plan) == d {
        assert !LockedBy(ops, d, n);
        assert PutAt(digest, ops, d, n);
      } else if d in before.headers {
        var k :| 0 <= k < |init| && PutAt(digest, init, d, k);
        assert ops[k] == init[k];
        LockedByNext(ops, d, k);
        assert PutAt(digest, ops, d, k);
      }
    }
  }

  lemma LockedByNext(ops: seq<Op>, d: Digest, from: nat)
    requires from < |ops|
    ensures LockedBy(ops, d, from) <==> LockedBy(ops[..|ops| - 1], d, from) || ops[|ops| - 1] == LockOp(d)
  {
    var init := ops[..|ops| - 1];
    if LockedBy(init, d, from) {
      var k :| from <= k < |init| && init[k] == LockOp(d);
      assert ops[k] == LockOp(d);
    }
    if LockedBy(ops, d, from) && ops[|ops| - 1] != LockOp(d) {
      var k :| from <= k < |ops| && ops[k] == LockOp(d);
      assert init[k] == LockOp(d);
    }
  }

  ghost predicate AllSorted(ops: seq<Op>) {
    forall k :: 0 <= k < |ops| && ops[k].PutOp? ==> StrictlySorted(ops[k].plan.items)
  }

  /** Over any run of fresh puts and locks of strictly sorted plans, what is rebuilt is what was put. */
  lemma RebuiltAsPut(digest: BackupPlan -> Digest, ops: seq<Op>, d: Digest, q: BackupPlan) returns (k: nat)
    requires FreshPuts(digest, ops) && AllSorted(ops) && Rebuilt(After(digest, ops), d, q)
    ensures k < |ops| && ops[k] == PutOp(q) && digest(q) == d && PutAt(digest, ops, d, k)
  {
    AlwaysTraced(digest, ops, d);
    k :| 0 <= k < |ops| && PutAt(digest, ops, d, k);
    var p := ops[k].plan;
    assert Rebuilt(PutInto(Tables(map[], map[]), d, p), d, q);
    ReadBackIff(Tables(map[], map[]), d, p, q);
  }

  /** So, each plan having been made under a policy of its own, one that passes the `retention_ready` filter was
      put, has not been locked since, and is at least as old as its own policy asks. */
  lemma ReadyPlansAreUnlockedAndOld(digest: BackupPlan -> Digest, ops: seq<Op>, d: Digest, q: BackupPlan, now: real,
                                    kept: BackupPlan -> real)
    requires FreshPuts(digest, ops) && AllSorted(ops)
    requires forall k :: 0 <= k < |ops| && ops[k].PutOp? ==>
               ops[k].plan.purgeAfter == ops[k].plan.createdAt + kept(ops[k].plan)
    requires Rebuilt(After(digest, ops), d, q) && Due(After(digest, ops), digest, q, now)
    ensures digest(q) == d && now - q.createdAt >= kept(q)
    ensures exists k :: 0 <= k < |ops| && ops[k] == PutOp(q) && !LockedBy(ops, d, k)
  {
    var k := RebuiltAsPut(digest, ops, d, q);
  }

  /** And none is listed twice. */
  lemma ListedOnce(digest: BackupPlan -> Digest, ops: seq<Op>, now: real, from: seq<Digest>, ready: seq<BackupPlan>)
    requires FreshPuts(digest, ops) && AllSorted(ops) && Listing(After(digest, ops), digest, now, from, ready)
    ensures forall i, j :: 0 <= i < j < |ready| ==> ready[i] != ready[j]
  {
    forall i, j | 0 <= i < j < |ready| ensures ready[i] != ready[j] {
      var m := RebuiltAsPut(digest, ops, from[i], ready[i]);
      var n := RebuiltAsPut(digest, ops, from[j], ready[j]);
      assert Self(from[i]) != Self(from[j]);
    }
  }

  /** Otherwise one may be: put a plan, and then what it is read back as. */
  lemma TwinRebuiltTwice(digest: BackupPlan -> Digest, p: BackupPlan, twin: BackupPlan)
    requires Rebuilt(After(digest, [PutOp(p)]), digest(p), twin)
    ensures var t := After(digest, [PutOp(p), PutOp(twin)]);
            digest(p) != digest(twin) ==> Rebuilt(t, digest(p), twin) && Rebuilt(t, digest(twin), twin)
  {
    if digest(p) == digest(twin) {
      return;
    }
    var ops := [PutOp(p)];
    var one := After(digest, ops);
    assert [PutOp(p), PutOp(twin)][..1] == ops && ops[..|ops| - 1] == [];
    assert After(digest, ops[..|ops| - 1]) == Tables(map[], map[]);
    assert one == PutInto(Tables(map[], map[]), digest(p), p);
    SortedReadsBack(one, digest(twin), twin);
    StillRebuilt(one, digest(p), twin, digest(twin), twin);
  }

  lemma SortedReadsBack(t: Tables, d: Digest, p: BackupPlan)
    requires d !in t.rows && StrictlySorted(p.items)
    ensures Rebuilt(PutInto(t, d, p), d, p)
  {
    InsertedRows(map[], p.items);
    var rows := Inserted(map[], p.items);
    assert RowsOf(PutInto(t, d, p), d) == rows;
    forall s | s in rows ensures exists k :: 0 <= k < |p.items| && p.items[k] == rows[s] {
      var k :| 0 <= k < |p.items| && p.items[k].source == s;
      assert rows[p.items[k].source] == p.items[k];
    }
  }

  lemma StillRebuilt(t: Tables, d: Digest, p: BackupPlan, e: Digest, q: BackupPlan)
    requires Rebuilt(t, d, p) && e != d
    ensures Rebuilt(PutInto(t, e, q), d, p)
  {
    assert RowsOf(PutInto(t, e, q), d) == RowsOf(t, d);
  }

  /** What goes wrong otherwise: a locked, expired plan passes the `retention_ready` filter exactly when it is
      read back as a different plan whose digest is not locked; that is, where its digest tells the two plans
      apart, exactly when its items were not strictly sorted by source and the altered twin is not locked. */
  lemma LockBypassIff(digest: BackupPlan -> Digest, t: Tables, p: BackupPlan, q: BackupPlan, now: real)
    requires digest(p) !in t.headers && digest(p) !in t.rows && p.purgeAfter <= now
    requires var locked := LockIn(PutInto(t, digest(p), p), digest(p)); Rebuilt(locked, digest(p), q)
    requires q != p ==> digest(q) != digest(p)
    ensures var locked := LockIn(PutInto(t, digest(p), p), digest(p));
            q.purgeAfter <= now && !IsLocked(locked, digest(q))
            <==> !StrictlySorted(p.items) && !IsLocked(t, digest(q))
  {
    assert Rebuilt(PutInto(t, digest(p), p), digest(p), q);
    ReadBackIff(t, digest(p), p, q);
  }

  /** Putting a plan again silently unlocks it: locks survive a put exactly when the plan put was not locked. */
  lemma PutKeepsLocksIff(t: Tables, d: Digest, p: BackupPlan)
    ensures (forall e :: IsLocked(t, e) ==> IsLocked(PutInto(t, d, p), e)) <==> !IsLocked(t, d)
  {
    if IsLocked(t, d) {
      assert !IsLocked(PutInto(t, d, p), d);
    }
  }
}
