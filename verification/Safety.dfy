/** The deterministic safety boundary (teldrive_lab/safety.py) over already resolved paths. */
module Safety {
  import opened Base

  /** A resolved absolute path: its components below "/". */
  type Path = seq<string>

  datatype Operation =
    | Read | Index | Verify | Plan | DryRun
    | Transfer | Write | Delete | Move | Rename | Overwrite | Reconfigure

  predicate Mutating(operation: Operation) {
    operation in {Transfer, Write, Delete, Move, Rename, Overwrite, Reconfigure}
  }

  const BUILTIN_ROOTS: seq<Path> := [
    ["home", "thakuralok", "TelegramRaw"],
    ["home", "thakuralok", "TelegramDrive"],
    ["home", "thakuralok", "teldrive"],
    ["home", "thakuralok", "teldrive-project"]
  ]

  const BUILTIN_STATE: seq<Path> := [
    ["home", "thakuralok", "teldrive", "session.db"],
    ["run", "docker.sock"]
  ]

  /** What the two environment variables add to the built-in boundary. */
  datatype Configuration = Configuration(roots: seq<Path>, state: seq<Path>)

  function Boundary(c: Configuration): seq<Path> {
    BUILTIN_ROOTS + c.roots + BUILTIN_STATE + c.state
  }

  /** `str(path)`. */
  function Text(p: Path): string {
    if |p| <= 1 then "/" + (if p == [] then "" else p[0])
    else Text(p[..|p| - 1]) + "/" + p[|p| - 1]
  }

  /** A path reads as its parent, a slash and its name. */
  lemma TextGrows(p: Path, name: string)
    ensures Text([]) == "/"
    ensures Text(p + [name]) == (if p == [] then "/" else Text(p) + "/") + name
  {
    assert (p + [name])[..|p|] == p;
  }

  function Texts(paths: seq<Path>): (r: seq<string>)
    ensures |r| == |paths|
    ensures forall i :: 0 <= i < |paths| ==> r[i] == Text(paths[i])
  {
    if paths == [] then [] else [Text(paths[0])] + Texts(paths[1..])
  }

  /** `path.parents`: the proper ancestors, nearest first. */
  function Parents(p: Path): seq<Path> {
    if p == [] then [] else [p[..|p| - 1]] + Parents(p[..|p| - 1])
  }

  predicate IsProtected(boundary: seq<Path>, p: Path) {
    exists root | root in boundary :: p == root || root in Parents(p)
  }

  lemma {:induction false} ParentsArePrefixes(p: Path, root: Path)
    ensures root in Parents(p) <==> root < p
  {
    if p != [] {
      var up := p[..|p| - 1];
      ParentsArePrefixes(up, root);
      if root < p && root != up {
        assert root == p[..|root|] == up[..|root|];
      }
      if root < up {
        assert root == up[..|root|] == p[..|root|];
      }
    }
  }

  /** A path is protected exactly when some root of the boundary is a prefix of it. */
  lemma ProtectedIffBelowRoot(boundary: seq<Path>, p: Path)
    ensures IsProtected(boundary, p) <==> exists root :: root in boundary && root <= p
  {
    forall root | root in boundary ensures (p == root || root in Parents(p)) <==> root <= p {
      ParentsArePrefixes(p, root);
    }
  }

  /** Nothing below a protected path escapes it, and configuration never weakens the built-in boundary. */
  lemma BoundaryOnlyGrows(c: Configuration, p: Path, below: Path)
    requires p <= below
    requires IsProtected(Boundary(c), p) || IsProtected(Boundary(Configuration([], [])), p)
    ensures IsProtected(Boundary(c), below)
  {
    ProtectedIffBelowRoot(Boundary(c), p);
    ProtectedIffBelowRoot(Boundary(c), below);
    ProtectedIffBelowRoot(Boundary(Configuration([], [])), p);
    var root :| (root in Boundary(c) || root in Boundary(Configuration([], []))) && root <= p;
    assert root in Boundary(c);
    assert root == p[..|root|] == below[..|root|];
  }

  /** What the boundary protects: what lies below one of five fixed places or of a configured one. */
  lemma BoundaryInWords(c: Configuration, p: Path)
    ensures IsProtected(Boundary(c), p) <==>
      || ["home", "thakuralok", "TelegramRaw"] <= p || ["home", "thakuralok", "TelegramDrive"] <= p
      || ["home", "thakuralok", "teldrive"] <= p || ["home", "thakuralok", "teldrive-project"] <= p
      || ["run", "docker.sock"] <= p
      || exists root :: root in c.roots + c.state && root <= p
  {
    ProtectedIffBelowRoot(Boundary(c), p);
    assert forall root :: root in Boundary(c) <==>
             root in BUILTIN_ROOTS || root in BUILTIN_STATE || root in c.roots + c.state;
    BelowSession(p);
    assert BUILTIN_ROOTS[0] in BUILTIN_ROOTS && BUILTIN_ROOTS[1] in BUILTIN_ROOTS && BUILTIN_ROOTS[2] in BUILTIN_ROOTS
           && BUILTIN_ROOTS[3] in BUILTIN_ROOTS && BUILTIN_STATE[1] in BUILTIN_STATE;
  }

  lemma BelowSession(p: Path)
    ensures BUILTIN_STATE[0] <= p ==> ["home", "thakuralok", "teldrive"] <= p
  {
    if BUILTIN_STATE[0] <= p {
      assert p[..4] == BUILTIN_STATE[0] && p[..3] == p[..4][..3];
    }
  }

  datatype Decision = Decision(allowed: bool, reason: string, requiresAuthorization: bool)

  datatype Receipt = Receipt(operation: Operation, paths: seq<string>, approved: bool, id: string)

  function ForPaths(operation: Operation, paths: seq<Path>, id: string): Result<Receipt, Error> {
    if !Mutating(operation) then Err(ValueError)
    else Ok(Receipt(operation, Sort(Texts(paths), Self), true, id))
  }

  function Join(parts: seq<string>): string {
    if parts == [] then ""
    else if |parts| == 1 then parts[0]
    else parts[0] + ", " + Join(parts[1..])
  }

  function ProtectedTexts(boundary: seq<Path>, paths: seq<Path>): (r: seq<string>)
    ensures r == [] <==> forall p :: p in paths ==> !IsProtected(boundary, p)
  {
    if paths == [] then []
    else (if IsProtected(boundary, paths[0]) then [Text(paths[0])] else []) + ProtectedTexts(boundary, paths[1..])
  }

  const BOUNDARY := "protected production boundary"
  const PROTECTED_REASON := BOUNDARY + ": "
  const AUTHORIZATION := "authorization"

  function Authorize(boundary: seq<Path>, operation: Operation, paths: seq<Path>,
                     explicit: bool, receipt: Option<Receipt>): Decision
  {
    var hit := ProtectedTexts(boundary, paths);
    if hit != [] && Mutating(operation) then
      Decision(false, PROTECTED_REASON + Join(hit), false)
    else if Mutating(operation) && receipt.Some? then
      var given := receipt.value;
      if !given.approved then Decision(false, AUTHORIZATION + " receipt is not approved", true)
      else if given.operation != operation then Decision(false, AUTHORIZATION + " receipt operation mismatch", true)
      else if given.paths != Sort(Texts(paths), Self) then
        Decision(false, AUTHORIZATION + " receipt scope mismatch", true)
      else Decision(true, "authorized by receipt " + given.id, false)
    else if Mutating(operation) && !explicit then
      Decision(false, "mutation requires explicit " + AUTHORIZATION, true)
    else if hit != [] then
      Decision(true, "read-only access to protected production: " + Join(hit), false)
    else Decision(true, "allowed", false)
  }

  ghost predicate Untouched(boundary: seq<Path>, paths: seq<Path>) {
    forall p, root :: p in paths && root in boundary ==> !(root <= p)
  }

  /** A receipt as `for_paths` issues it covers exactly the given paths, counted with multiplicity. */
  ghost predicate Covers(receipt: Receipt, operation: Operation, paths: seq<Path>) {
    receipt.approved && receipt.operation == operation && multiset(receipt.paths) == multiset(Texts(paths))
  }

  lemma NoneProtected(boundary: seq<Path>, paths: seq<Path>)
    ensures ProtectedTexts(boundary, paths) == [] <==> Untouched(boundary, paths)
  {
    forall p | p in paths
      ensures IsProtected(boundary, p) <==> exists root :: root in boundary && root <= p
    {
      ProtectedIffBelowRoot(boundary, p);
    }
  }

  lemma ScopeMatches(given: seq<string>, texts: seq<string>)
    ensures given == Sort(texts, Self) <==> Sorted(given, Self) && multiset(given) == multiset(texts)
  {
    SortSorted(texts, Self);
    SortKeeps(texts, Self);
    if Sorted(given, Self) && multiset(given) == multiset(texts) {
      SortedUnique(given, Sort(texts, Self));
    }
  }

  /** The whole decision table of a mutation, stated on prefixes and multisets of paths.  A receipt made by hand
      must also list its paths in order, as `for_paths` does. */
  lemma MutationAllowedIff(boundary: seq<Path>, operation: Operation, paths: seq<Path>,
                           explicit: bool, receipt: Option<Receipt>)
    requires operation in {Transfer, Write, Delete, Move, Rename, Overwrite, Reconfigure}
    ensures Authorize(boundary, operation, paths, explicit, receipt).allowed
       <==> && (forall p, root :: p in paths && root in boundary ==> !(root <= p))
            && (if receipt.Some?
                then && receipt.value.approved && receipt.value.operation == operation
                     && multiset(receipt.value.paths) == multiset(Texts(paths)) && Sorted(receipt.value.paths, Self)
                else explicit)
  {
    NoneProtected(boundary, paths);
    if receipt.Some? {
      ScopeMatches(receipt.value.paths, Texts(paths));
    }
  }

  /** Reading is never refused, whatever the path. */
  lemma ReadingAlwaysAllowed(boundary: seq<Path>, operation: Operation, paths: seq<Path>, explicit: bool,
                             receipt: Option<Receipt>)
    requires operation in {Read, Index, Verify, Plan, DryRun}
    ensures Authorize(boundary, operation, paths, explicit, receipt).allowed
  {}

  /** A receipt issued for one list of paths authorises another exactly when no path is protected and
      both lists have the same paths with the same multiplicities, in whatever order. */
  lemma IssuedReceiptScope(boundary: seq<Path>, operation: Operation, issued: seq<Path>, used: seq<Path>, id: string)
    requires operation in {Transfer, Write, Delete, Move, Rename, Overwrite, Reconfigure}
    ensures ForPaths(operation, issued, id).Ok?
    ensures Authorize(boundary, operation, used, false, Some(ForPaths(operation, issued, id).value)).allowed
       <==> Untouched(boundary, used) && multiset(Texts(issued)) == multiset(Texts(used))
  {
    SortSorted(Texts(issued), Self);
    SortKeeps(Texts(issued), Self);
    MutationAllowedIff(boundary, operation, used, false, Some(ForPaths(operation, issued, id).value));
  }

  /** No receipt is issued for an operation that does not mutate. */
  lemma OnlyMutationsNeedReceipts(operation: Operation, paths: seq<Path>, id: string)
    ensures operation in {Read, Index, Verify, Plan, DryRun} <==> ForPaths(operation, paths, id) == Err(ValueError)
    ensures operation !in {Read, Index, Verify, Plan, DryRun} ==>
              var receipt := ForPaths(operation, paths, id).value;
              receipt.approved && receipt.operation == operation && receipt.id == id
  {}

  lemma ProtectedReason(boundary: seq<Path>, operation: Operation, paths: seq<Path>, explicit: bool,
                        receipt: Option<Receipt>)
    requires Mutating(operation) && ProtectedTexts(boundary, paths) != []
    ensures var d := Authorize(boundary, operation, paths, explicit, receipt);
            !d.requiresAuthorization && Contains(d.reason, BOUNDARY)
  {
    ContainsPrefix(BOUNDARY, ": " + Join(ProtectedTexts(boundary, paths)));
    assert PROTECTED_REASON + Join(ProtectedTexts(boundary, paths))
           == BOUNDARY + (": " + Join(ProtectedTexts(boundary, paths)));
  }

  lemma ReceiptReason(boundary: seq<Path>, operation: Operation, paths: seq<Path>, explicit: bool, receipt: Receipt)
    requires Mutating(operation) && ProtectedTexts(boundary, paths) == []
    requires !Authorize(boundary, operation, paths, explicit, Some(receipt)).allowed
    ensures var d := Authorize(boundary, operation, paths, explicit, Some(receipt));
            d.requiresAuthorization && Contains(d.reason, AUTHORIZATION)
  {
    ContainsPrefix(AUTHORIZATION, " receipt is not approved");
    ContainsPrefix(AUTHORIZATION, " receipt operation mismatch");
    ContainsPrefix(AUTHORIZATION, " receipt scope mismatch");
  }

  lemma {:induction false} JoinNamesAll(parts: seq<string>, k: nat)
    requires k < |parts|
    ensures Contains(Join(parts), parts[k])
  {
    if |parts| == 1 {
      assert OccursAt(parts[0], parts[0], 0);
    } else if k == 0 {
      ContainsPrefix(parts[0], ", " + Join(parts[1..]));
      assert parts[0] + (", " + Join(parts[1..])) == Join(parts);
    } else {
      JoinNamesAll(parts[1..], k - 1);
      PartContains(parts[0] + ", ", Join(parts[1..]), "", parts[k]);
      assert parts[0] + ", " + Join(parts[1..]) + "" == Join(parts);
    }
  }

  lemma {:induction false} ProtectedListed(boundary: seq<Path>, paths: seq<Path>, p: Path) returns (k: nat)
    requires p in paths && IsProtected(boundary, p)
    ensures k < |ProtectedTexts(boundary, paths)| && ProtectedTexts(boundary, paths)[k] == Text(p)
  {
    if p == paths[0] {
      k := 0;
    } else {
      k := ProtectedListed(boundary, paths[1..], p);
      if IsProtected(boundary, paths[0]) {
        k := k + 1;
      }
    }
  }

  /** A refusal for the boundary names every protected path. */
  lemma ProtectedNamed(boundary: seq<Path>, operation: Operation, paths: seq<Path>, explicit: bool,
                       receipt: Option<Receipt>, p: Path)
    requires operation in {Transfer, Write, Delete, Move, Rename, Overwrite, Reconfigure}
    requires p in paths && exists root :: root in boundary && root <= p
    ensures var d := Authorize(boundary, operation, paths, explicit, receipt);
            !d.allowed && Contains(d.reason, "protected production boundary") && Contains(d.reason, Text(p))
  {
    ProtectedIffBelowRoot(boundary, p);
    var k := ProtectedListed(boundary, paths, p);
    var hit := ProtectedTexts(boundary, paths);
    JoinNamesAll(hit, k);
    PartContains(PROTECTED_REASON, Join(hit), "", Text(p));
    assert PROTECTED_REASON + Join(hit) + "" == PROTECTED_REASON + Join(hit);
    ProtectedReason(boundary, operation, paths, explicit, receipt);
  }

  /** Every refusal names its cause in words the transfer executor looks for, and a refusal that could
      be cured by a receipt is exactly one on unprotected paths. */
  lemma RefusalReason(boundary: seq<Path>, operation: Operation, paths: seq<Path>, explicit: bool,
                      receipt: Option<Receipt>)
    requires !Authorize(boundary, operation, paths, explicit, receipt).allowed
    ensures var d := Authorize(boundary, operation, paths, explicit, receipt);
            && d.requiresAuthorization == Untouched(boundary, paths)
            && (d.requiresAuthorization ==> Contains(d.reason, AUTHORIZATION))
            && (!d.requiresAuthorization ==> Contains(d.reason, BOUNDARY))
  {
    NoneProtected(boundary, paths);
    if ProtectedTexts(boundary, paths) != [] {
      ProtectedReason(boundary, operation, paths, explicit, receipt);
    } else if receipt.Some? {
      ReceiptReason(boundary, operation, paths, explicit, receipt.value);
    } else {
      ContainsSuffix("mutation requires explicit ", AUTHORIZATION);
    }
  }

  lemma WithoutReceipt(boundary: seq<Path>, operation: Operation, paths: seq<Path>)
    requires Mutating(operation)
    ensures var d := Authorize(boundary, operation, paths, false, None);
            !d.allowed && (d.requiresAuthorization <==> Untouched(boundary, paths))
  {
    NoneProtected(boundary, paths);
  }

  /** What the planners ask: would a receipt not help either?  They have none to show. */
  method Vetoed(boundary: seq<Path>, operation: Operation, paths: seq<Path>) returns (vetoed: bool)
    requires Mutating(operation)
    ensures vetoed <==> !Untouched(boundary, paths)
  {
    var decision := Authorize(boundary, operation, paths, false, None);
    WithoutReceipt(boundary, operation, paths);
    vetoed := !decision.allowed && !decision.requiresAuthorization;
  }
}
