/** Incremental snapshots against full ones (teldrive_lab/advanced.py:469-498). */
module Snapshots {
  import opened Base

  type Digest = string

  /** What the manifest records of one file. */
  datatype Entry = Entry(size: nat, sha256: Digest, mtime: real)

  /** Keyed by path relative to the root. */
  type Manifest = map<string, Entry>

  datatype Snapshot = Snapshot(files: Manifest, parentDigest: Option<Digest>, changed: Manifest, deleted: seq<string>,
                               digest: Digest)

  datatype Verdict = Verdict(verified: bool, missing: seq<string>, extra: seq<string>, changed: seq<string>)

  /** `sorted(set)`: every member once, in order. */
  ghost predicate Lists(s: seq<string>, members: set<string>) {
    && Sorted(s, Self)
    && |s| == |members|
    && forall x :: x in s <==> x in members
  }

  function FilesOf(parent: Option<Snapshot>): Manifest {
    if parent.Some? then parent.value.files else map[]
  }

  function Changed(before: Manifest, files: Manifest): Manifest {
    map k | k in files && (k !in before || before[k] != files[k]) :: files[k]
  }

  /** Reading an increment: drop what was deleted, then write what changed. */
  function Apply(before: Manifest, changed: Manifest, deleted: seq<string>): Manifest {
    (before - set p | p in deleted) + changed
  }

  method SortedPaths(members: set<string>) returns (s: seq<string>)
    ensures Lists(s, members)
  {
    var left, listed := members, [];
    while left != {}
      invariant left <= members && |listed| == |members| - |left|
      invariant forall x :: x in listed <==> x in members && x !in left
      decreases |left|
    {
      var x :| x in left;
      left := left - {x};
      listed := listed + [x];
    }
    s := Sort(listed, Self);
    SortSorted(listed, Self);
    SortMembers(listed, Self);
  }

  /** `digestOf` stands for the hash of the body without its own digest. */
  method CreateSnapshot(files: Manifest, parent: Option<Snapshot>, digestOf: Snapshot -> Digest) returns (s: Snapshot)
    ensures s.files == files
    ensures s.parentDigest == if parent.Some? then Some(parent.value.digest) else None
    ensures s.changed == Changed(FilesOf(parent), files)
    ensures forall k :: k in s.changed <==>
              k in files && !(parent.Some? && k in parent.value.files && parent.value.files[k] == files[k])
    ensures forall k :: k in s.changed ==> s.changed[k] == files[k]
    ensures forall k :: k in s.deleted <==> parent.Some? && k in parent.value.files && k !in files
    ensures Lists(s.deleted, FilesOf(parent).Keys - files.Keys)
    ensures s.digest == digestOf(s.(digest := ""))
  {
    var before := FilesOf(parent);
    var changed := map k | k in files && (k !in before || before[k] != files[k]) :: files[k];
    var deleted := SortedPaths(before.Keys - files.Keys);
    var body := Snapshot(files, if parent.Some? then Some(parent.value.digest) else None, changed, deleted, "");
    s := body.(digest := digestOf(body));
    assert s.(digest := "") == body;
  }

  /** A snapshot as `create_snapshot` makes it from this parent. */
  ghost predicate MadeFrom(s: Snapshot, parent: Option<Snapshot>) {
    s.changed == Changed(FilesOf(parent), s.files) && Lists(s.deleted, FilesOf(parent).Keys - s.files.Keys)
  }

  // ---------- increments ----------

  lemma AppliedAt(before: Manifest, files: Manifest, deleted: seq<string>, k: string)
    requires forall x :: x in deleted <==> x in before && x !in files
    ensures var rebuilt := Apply(before, Changed(before, files), deleted);
            (k in rebuilt <==> k in files) && (k in files ==> rebuilt[k] == files[k])
  {
    assert k in (set p | p in deleted) <==> k in deleted;
    if k in Changed(before, files) {
      assert Apply(before, Changed(before, files), deleted)[k] == files[k];
    }
  }

  lemma SameManifest(a: Manifest, b: Manifest)
    requires forall k :: (k in a <==> k in b) && (k in b ==> a[k] == b[k])
    ensures a == b
  {}

  /** An increment carries its parent's files to its own. */
  lemma IncrementRebuilds(s: Snapshot, parent: Option<Snapshot>)
    requires MadeFrom(s, parent)
    ensures Apply(FilesOf(parent), s.changed, s.deleted) == s.files
  {
    var before := FilesOf(parent);
    assert forall x :: x in s.deleted <==> x in before && x !in s.files;
    var rebuilt := Apply(before, s.changed, s.deleted);
    forall k ensures (k in rebuilt <==> k in s.files) && (k in s.files ==> rebuilt[k] == s.files[k]) {
      AppliedAt(before, s.files, s.deleted, k);
    }
    SameManifest(rebuilt, s.files);
  }

  lemma Untouched(before: Manifest, changed: Manifest, deleted: seq<string>)
    ensures var rebuilt := Apply(before, changed, deleted);
            forall k :: k in rebuilt && k !in changed ==> k in before && rebuilt[k] == before[k]
  {}

  /** And it is the smallest that does: any other increment with the same effect deletes at least the same
      paths and writes at least the same entries. */
  lemma IncrementIsLeast(s: Snapshot, parent: Option<Snapshot>, changed: Manifest, deleted: seq<string>)
    requires MadeFrom(s, parent)
    requires Apply(FilesOf(parent), changed, deleted) == s.files
    ensures forall p :: p in s.deleted ==> p in deleted
    ensures forall k :: k in s.changed ==> k in changed && changed[k] == s.changed[k]
  {
    var before := FilesOf(parent);
    var rebuilt := Apply(before, changed, deleted);
    Untouched(before, changed, deleted);
    forall p | p in s.deleted ensures p in deleted {
      assert p !in rebuilt;
    }
    forall k | k in s.changed ensures k in changed && changed[k] == s.changed[k] {
      assert k in rebuilt && rebuilt[k] == s.files[k];
    }
  }

  // ---------- chains ----------

  function Last(chain: seq<Snapshot>): Option<Snapshot> {
    if chain == [] then None else Some(chain[|chain| - 1])
  }

  /** Each snapshot is made with the previous one as parent, the first with none. */
  ghost predicate Chain(chain: seq<Snapshot>)
    decreases |chain|
  {
    chain == [] ||
    var before := chain[..|chain| - 1];
    Chain(before) && MadeFrom(chain[|chain| - 1], Last(before))
  }

  lemma {:induction false} ChainPrefix(chain: seq<Snapshot>, n: nat)
    requires Chain(chain) && n <= |chain|
    ensures Chain(chain[..n])
    decreases |chain|
  {
    if n == |chain| {
      assert chain[..n] == chain;
    } else {
      assert chain[..|chain| - 1][..n] == chain[..n];
      ChainPrefix(chain[..|chain| - 1], n);
    }
  }

  /** The increments of a run of snapshots, applied in order. */
  function Replay(start: Manifest, chain: seq<Snapshot>): Manifest
    decreases |chain|
  {
    if chain == [] then start
    else
      var last := chain[|chain| - 1];
      Apply(Replay(start, chain[..|chain| - 1]), last.changed, last.deleted)
  }

  /** Replaying the increments of any chain, from nothing, rebuilds the last full manifest; so the full
      manifests are redundant. */
  lemma {:induction false} ReplayRebuilds(chain: seq<Snapshot>)
    requires Chain(chain)
    ensures Replay(map[], chain) == FilesOf(Last(chain))
    decreases |chain|
  {
    if chain != [] {
      var before := chain[..|chain| - 1];
      ReplayRebuilds(before);
      IncrementRebuilds(chain[|chain| - 1], Last(before));
    }
  }

  lemma {:induction false} ReplaySplit(start: Manifest, a: seq<Snapshot>, b: seq<Snapshot>)
    ensures Replay(start, a + b) == Replay(Replay(start, a), b)
    decreases |b|
  {
    if b == [] {
      assert a + b == a;
    } else {
      var n := |b| - 1;
      assert (a + b)[..|a + b| - 1] == a + b[..n];
      ReplaySplit(start, a, b[..n]);
    }
  }

  /** Any snapshot of a chain can be the base: replaying only what follows it gives the same manifest. */
  lemma RestoreFromAnyBase(before: seq<Snapshot>, after: seq<Snapshot>)
    requires Chain(before + after)
    ensures Replay(FilesOf(Last(before)), after) == FilesOf(Last(before + after))
  {
    ChainPrefix(before + after, |before|);
    assert (before + after)[..|before|] == before;
    ReplayRebuilds(before);
    ReplaySplit(map[], before, after);
    ReplayRebuilds(before + after);
  }

  // ---------- verification ----------

  predicate SameContent(a: Entry, b: Entry) {
    a.sha256 == b.sha256 && a.size == b.size
  }

  method VerifySnapshot(s: Snapshot, actual: Manifest) returns (v: Verdict)
    ensures Lists(v.missing, s.files.Keys - actual.Keys)
    ensures Lists(v.extra, actual.Keys - s.files.Keys)
    ensures Lists(v.changed, set k | k in s.files && k in actual && !SameContent(s.files[k], actual[k]))
    ensures v.verified <==> Matches(s.files, actual)
    ensures forall k :: k in v.changed <==>
              k in s.files && k in actual
              && (s.files[k].size != actual[k].size || s.files[k].sha256 != actual[k].sha256)
    ensures v.verified <==> v.missing == [] && v.extra == [] && v.changed == []
  {
    var expected := s.files;
    var missing := SortedPaths(expected.Keys - actual.Keys);
    var extra := SortedPaths(actual.Keys - expected.Keys);
    var differing := set k | k in expected.Keys * actual.Keys
                             && (expected[k].sha256 != actual[k].sha256 || expected[k].size != actual[k].size);
    var changed := SortedPaths(differing);
    v := Verdict(missing == [] && extra == [] && changed == [], missing, extra, changed);
    assert differing == set k | k in s.files && k in actual && !SameContent(s.files[k], actual[k]);
    EmptyListing(missing, expected.Keys - actual.Keys);
    EmptyListing(extra, actual.Keys - expected.Keys);
    EmptyListing(changed, differing);
    VerdictMeaning(expected, actual);
  }

  /** Same paths, sizes and digests; modification times may differ. */
  ghost predicate Matches(expected: Manifest, actual: Manifest) {
    expected.Keys == actual.Keys && forall k :: k in expected && k in actual ==> SameContent(expected[k], actual[k])
  }

  lemma EmptyListing(s: seq<string>, members: set<string>)
    requires Lists(s, members)
    ensures s == [] <==> members == {}
  {}

  lemma VerdictMeaning(expected: Manifest, actual: Manifest)
    ensures Matches(expected, actual)
       <==> && expected.Keys - actual.Keys == {} && actual.Keys - expected.Keys == {}
            && (set k | k in expected && k in actual && !SameContent(expected[k], actual[k])) == {}
  {
    var differing := set k | k in expected && k in actual && !SameContent(expected[k], actual[k]);
    if differing == {} {
      forall k | k in expected && k in actual ensures SameContent(expected[k], actual[k]) {
        assert k !in differing;
      }
    }
    if expected.Keys - actual.Keys == {} && actual.Keys - expected.Keys == {} {
      forall k ensures k in expected <==> k in actual {
        assert k !in expected.Keys - actual.Keys && k !in actual.Keys - expected.Keys;
      }
    }
  }

  predicate OnlyTimeDiffers(before: Manifest, k: string, now: Entry) {
    k in before && SameContent(before[k], now) && before[k].mtime != now.mtime
  }

  /** A tree verifies against a snapshot exactly when the next snapshot of it, with this one as parent, would
      delete nothing and rewrite only entries whose modification time alone differs. */
  lemma VerifiedIffOnlyTimesChanged(s: Snapshot, next: Snapshot)
    requires MadeFrom(next, Some(s))
    ensures Matches(s.files, next.files)
       <==> && next.deleted == []
            && forall k :: k in next.changed ==> OnlyTimeDiffers(s.files, k, next.changed[k])
  {
    EmptyListing(next.deleted, s.files.Keys - next.files.Keys);
    if next.deleted == [] && forall k :: k in next.changed ==> OnlyTimeDiffers(s.files, k, next.changed[k]) {
      forall k | k in s.files ensures k in next.files {
        assert k !in s.files.Keys - next.files.Keys;
      }
      forall k | k in next.files ensures k in s.files && SameContent(s.files[k], next.files[k]) {
        if k !in next.changed {
          assert s.files[k] == next.files[k];
        }
      }
    }
    if Matches(s.files, next.files) {
      assert s.files.Keys - next.files.Keys == {};
    }
  }

  type Bytes = seq<nat>

  /** `manifest_tree` of a tree given by its bytes and times. */
  function ManifestOf(sha: Bytes -> Digest, tree: map<string, Bytes>, mtime: string -> real): Manifest {
    map k | k in tree :: Entry(|tree[k]|, sha(tree[k]), mtime(k))
  }

  /** Where the digest separates the contents in question, a verified tree has exactly the bytes it had. */
  lemma VerifiedMeansSameBytes(sha: Bytes -> Digest, earlier: map<string, Bytes>, now: map<string, Bytes>,
                               mtimeThen: string -> real, mtimeNow: string -> real)
    requires forall k :: k in earlier && k in now && sha(earlier[k]) == sha(now[k]) ==> earlier[k] == now[k]
    ensures Matches(ManifestOf(sha, earlier, mtimeThen), ManifestOf(sha, now, mtimeNow)) <==> earlier == now
  {
    var a, b := ManifestOf(sha, earlier, mtimeThen), ManifestOf(sha, now, mtimeNow);
    assert a.Keys == earlier.Keys && b.Keys == now.Keys;
    if Matches(a, b) {
      forall k | k in earlier ensures k in now && earlier[k] == now[k] {
        assert k in a && k in b && SameContent(a[k], b[k]);
      }
    }
  }
}
