/** Values shared by every component: optional values, error returns, the order Python uses on
    strings, and a stable insertion sort by a string key. */
module Base {

  datatype Option<+T> = None | Some(value: T) {
    function GetOr(default: T): T { if Some? then value else default }
  }

  datatype Result<+T, +E> = Ok(value: T) | Err(error: E)

  /** The exceptions the modelled code raises. */
  datatype Error = ValueError | KeyError | IntegrityError | OsError | PermissionError | FileExistsError | OtherError

  /** What an executor hands back: its boolean, or an exception that escaped. */
  datatype Answer = Answer(ok: bool) | Threw(error: Error)

  function Max(a: real, b: real): real {
    if a < b then b else a
  }

  function Min(a: real, b: real): real {
    if b < a then b else a
  }

  // ---------- strings ----------

  /** Lexicographic order by code point. */
  predicate Leq(a: string, b: string) {
    a == [] || (b != [] && (a[0] < b[0] || (a[0] == b[0] && Leq(a[1..], b[1..]))))
  }

  lemma SameHeads(a: string, b: string, k: nat)
    requires 0 < k <= |a| && k <= |b| && a[..k] == b[..k]
    ensures a[0] == b[0]
  {
    assert a[..k][0] == a[0] && b[..k][0] == b[0];
  }

  /** The order in words: a prefix comes first, and otherwise the first difference decides. */
  lemma {:induction false} LeqInWords(a: string, b: string)
    ensures Leq(a, b) <==> a <= b || exists k :: 0 <= k < |a| && k < |b| && a[..k] == b[..k] && a[k] < b[k]
  {
    if a != [] && b != [] {
      if a[0] == b[0] {
        LeqInWords(a[1..], b[1..]);
        if a[1..] <= b[1..] {
          assert a == [a[0]] + a[1..] && b == [b[0]] + b[1..];
        }
        if a <= b {
          assert a[1..] == b[..|a|][1..] == b[1..][..|a| - 1];
        }
        if k :| 0 <= k < |a[1..]| && k < |b[1..]| && a[1..][..k] == b[1..][..k] && a[1..][k] < b[1..][k] {
          assert a[..k + 1] == [a[0]] + a[1..][..k] && b[..k + 1] == [b[0]] + b[1..][..k];
          assert a[k + 1] < b[k + 1];
        }
        if k :| 0 <= k < |a| && k < |b| && a[..k] == b[..k] && a[k] < b[k] {
          assert a[1..][..k - 1] == a[..k][1..] && b[1..][..k - 1] == b[..k][1..];
          assert a[1..][k - 1] < b[1..][k - 1];
        }
      } else {
        assert a[0] < b[0] ==> a[..0] == b[..0];
        if k :| 0 <= k < |a| && k < |b| && a[..k] == b[..k] && a[k] < b[k] {
          if k > 0 {
            SameHeads(a, b, k);
          }
        }
      }
    }
  }

  lemma {:induction false} LeqTotal(a: string, b: string)
    ensures Leq(a, b) || Leq(b, a)
  {
    if a != [] && b != [] && a[0] == b[0] {
      LeqTotal(a[1..], b[1..]);
    }
  }

  lemma {:induction false} LeqAntisymmetric(a: string, b: string)
    requires Leq(a, b) && Leq(b, a)
    ensures a == b
  {
    if a != [] {
      LeqAntisymmetric(a[1..], b[1..]);
      assert a == [a[0]] + a[1..] && b == [b[0]] + b[1..];
    }
  }

  lemma {:induction false} LeqTransitive(a: string, b: string, c: string)
    requires Leq(a, b) && Leq(b, c)
    ensures Leq(a, c)
  {
    if a != [] && a[0] == b[0] && b[0] == c[0] {
      LeqTransitive(a[1..], b[1..], c[1..]);
    }
  }

  predicate OccursAt(text: string, phrase: string, i: nat) {
    i + |phrase| <= |text| && text[i..i + |phrase|] == phrase
  }

  predicate Contains(text: string, phrase: string) {
    exists i :: 0 <= i <= |text| && OccursAt(text, phrase, i)
  }

  lemma OccursInPart(before: string, part: string, after: string, phrase: string, i: nat)
    requires i + |phrase| <= |part|
    ensures OccursAt(part, phrase, i) <==> OccursAt(before + part + after, phrase, |before| + i)
  {
    var text, k := before + part + after, |before| + i;
    assert part[i..i + |phrase|] == text[k..k + |phrase|];
  }

  lemma PartContains(before: string, part: string, after: string, phrase: string)
    requires Contains(part, phrase)
    ensures Contains(before + part + after, phrase)
  {
    var i: nat :| i <= |part| && OccursAt(part, phrase, i);
    OccursInPart(before, part, after, phrase, i);
  }

  lemma ContainsSuffix(start: string, phrase: string)
    ensures Contains(start + phrase, phrase)
  {
    assert OccursAt(start + phrase, phrase, |start|);
  }

  lemma ContainsPrefix(phrase: string, rest: string)
    ensures Contains(phrase + rest, phrase)
  {
    assert OccursAt(phrase + rest, phrase, 0);
  }

  // ---------- sorting by a key ----------

  predicate Sorted<T>(s: seq<T>, key: T -> string) {
    forall i, j :: 0 <= i < j < |s| ==> Leq(key(s[i]), key(s[j]))
  }

  function Insert<T>(x: T, s: seq<T>, key: T -> string): (r: seq<T>)
    ensures |r| == |s| + 1
  {
    if s == [] then [x]
    else if Leq(key(x), key(s[0])) then [x] + s
    else [s[0]] + Insert(x, s[1..], key)
  }

  function Sort<T>(s: seq<T>, key: T -> string): (r: seq<T>)
    ensures |r| == |s|
  {
    if s == [] then [] else Insert(s[0], Sort(s[1..], key), key)
  }

  lemma {:induction false} InsertKeeps<T>(x: T, s: seq<T>, key: T -> string)
    ensures multiset(Insert(x, s, key)) == multiset{x} + multiset(s)
  {
    if s != [] && !Leq(key(x), key(s[0])) {
      InsertKeeps(x, s[1..], key);
      assert s == [s[0]] + s[1..];
    }
  }

  lemma {:induction false} SortKeeps<T>(s: seq<T>, key: T -> string)
    ensures multiset(Sort(s, key)) == multiset(s)
  {
    if s != [] {
      SortKeeps(s[1..], key);
      InsertKeeps(s[0], Sort(s[1..], key), key);
      assert s == [s[0]] + s[1..];
    }
  }

  lemma SortMembers<T>(s: seq<T>, key: T -> string)
    ensures forall x :: x in Sort(s, key) <==> x in s
  {
    SortKeeps(s, key);
    forall x ensures x in Sort(s, key) <==> x in s {
      assert x in Sort(s, key) <==> x in multiset(Sort(s, key));
      assert x in s <==> x in multiset(s);
    }
  }

  lemma {:induction false} InsertSorted<T>(x: T, s: seq<T>, key: T -> string)
    requires Sorted(s, key)
    ensures Sorted(Insert(x, s, key), key)
  {
    if s == [] {
    } else if Leq(key(x), key(s[0])) {
      forall j | 0 <= j < |s| ensures Leq(key(x), key(s[j])) {
        if j > 0 { LeqTransitive(key(x), key(s[0]), key(s[j])); }
      }
    } else {
      LeqTotal(key(x), key(s[0]));
      InsertSorted(x, s[1..], key);
      var rest := Insert(x, s[1..], key);
      InsertKeeps(x, s[1..], key);
      forall y | y in rest ensures Leq(key(s[0]), key(y)) {
        assert y in multiset(rest);
        assert y == x || y in s[1..];
      }
    }
  }

  lemma {:induction false} SortSorted<T>(s: seq<T>, key: T -> string)
    ensures Sorted(Sort(s, key), key)
  {
    if s != [] {
      SortSorted(s[1..], key);
      InsertSorted(s[0], Sort(s[1..], key), key);
    }
  }

  // ---------- lists without repetition ----------

  ghost predicate Distinct<T, K>(s: seq<T>, id: T -> K) {
    forall i, j :: 0 <= i < j < |s| ==> id(s[i]) != id(s[j])
  }

  lemma DistinctCons<T, K>(x: T, s: seq<T>, id: T -> K)
    requires Distinct(s, id) && forall y :: y in s ==> id(y) != id(x)
    ensures Distinct([x] + s, id)
  {
    var r := [x] + s;
    forall i, j | 0 <= i < j < |r| ensures id(r[i]) != id(r[j]) {
      assert r[j] == s[j - 1] && s[j - 1] in s;
      assert i > 0 ==> r[i] == s[i - 1];
    }
  }

  lemma DistinctTail<T, K>(s: seq<T>, id: T -> K)
    requires Distinct(s, id) && s != []
    ensures Distinct(s[1..], id) && forall y :: y in s[1..] ==> id(y) != id(s[0])
  {}

  lemma {:induction false} InsertKeepsDistinct<T, K>(x: T, s: seq<T>, key: T -> string, id: T -> K)
    requires Distinct(s, id) && forall y :: y in s ==> id(y) != id(x)
    ensures Distinct(Insert(x, s, key), id)
  {
    if s == [] || Leq(key(x), key(s[0])) {
      DistinctCons(x, s, id);
      assert [x] + [] == [x];
    } else {
      DistinctTail(s, id);
      InsertKeepsDistinct(x, s[1..], key, id);
      var rest := Insert(x, s[1..], key);
      InsertKeeps(x, s[1..], key);
      forall y | y in rest ensures id(y) != id(s[0]) {
        assert y in multiset(rest);
        assert y == x || y in s[1..];
      }
      DistinctCons(s[0], rest, id);
    }
  }

  lemma {:induction false} SortKeepsDistinct<T, K>(s: seq<T>, key: T -> string, id: T -> K)
    requires Distinct(s, id)
    ensures Distinct(Sort(s, key), id)
  {
    if s != [] {
      DistinctTail(s, id);
      SortKeepsDistinct(s[1..], key, id);
      SortKeeps(s[1..], key);
      var rest := Sort(s[1..], key);
      forall y | y in rest ensures id(y) != id(s[0]) {
        assert y in multiset(rest) && y in multiset(s[1..]);
      }
      InsertKeepsDistinct(s[0], rest, key, id);
    }
  }

  function Self(s: string): string { s }

  lemma FirstIsLeast(a: seq<string>, x: string)
    requires Sorted(a, Self) && x in a
    ensures Leq(a[0], x)
  {
    var j :| 0 <= j < |a| && a[j] == x;
    if j == 0 {
      LeqTotal(x, x);
    } else {
      assert Leq(Self(a[0]), Self(a[j]));
    }
  }

  lemma SameHead(a: seq<string>, b: seq<string>)
    requires Sorted(a, Self) && Sorted(b, Self) && a != [] && b != [] && a[0] in b && b[0] in a
    ensures a[0] == b[0]
  {
    FirstIsLeast(a, b[0]);
    FirstIsLeast(b, a[0]);
    LeqAntisymmetric(a[0], b[0]);
  }

  lemma SameTails<T>(a: seq<T>, b: seq<T>)
    requires a != [] && b != [] && a[0] == b[0] && multiset(a) == multiset(b)
    ensures multiset(a[1..]) == multiset(b[1..])
  {
    assert a == [a[0]] + a[1..] && b == [b[0]] + b[1..];
    assert multiset(a[1..]) == multiset(a) - multiset{a[0]};
    assert multiset(b[1..]) == multiset(b) - multiset{b[0]};
  }

  /** Two sorted tuples of strings with the same elements are the same tuple. */
  lemma {:induction false} SortedUnique(a: seq<string>, b: seq<string>)
    requires Sorted(a, Self) && Sorted(b, Self) && multiset(a) == multiset(b)
    ensures a == b
    decreases |a|
  {
    assert |a| == |multiset(a)| == |multiset(b)| == |b|;
    if a != [] {
      assert a[0] in b by { assert a[0] in multiset(b); }
      assert b[0] in a by { assert b[0] in multiset(a); }
      SameHead(a, b);
      SameTails(a, b);
      SortedTail(a);
      SortedTail(b);
      SortedUnique(a[1..], b[1..]);
      assert a == [a[0]] + a[1..] && b == [b[0]] + b[1..];
    }
  }

  lemma SortedTail(a: seq<string>)
    requires Sorted(a, Self) && a != []
    ensures Sorted(a[1..], Self)
  {}

  /** Comparing sorted tuples is comparing multisets. */
  lemma SortComparesMultisets(a: seq<string>, b: seq<string>)
    ensures Sort(a, Self) == Sort(b, Self) <==> multiset(a) == multiset(b)
  {
    SortSorted(a, Self);
    SortSorted(b, Self);
    SortKeeps(a, Self);
    SortKeeps(b, Self);
    if multiset(a) == multiset(b) {
      SortedUnique(Sort(a, Self), Sort(b, Self));
    }
  }
}
