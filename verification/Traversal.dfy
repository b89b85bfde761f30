/** The bounded traversal with an explicit stack (teldrive_lab/resources.py, `iter_files`) against a recursive
    one, on finite trees without links or I/O errors. */
module Traversal {
  import opened Base

  /** A directory entry; the entries of a directory come in any order. */
  datatype Node = File(name: string) | Dir(name: string, entries: seq<Node>)

  type Path = seq<string>

  function NameOf(n: Node): string { n.name }

  /** `sorted(directory.iterdir(), key=name)`. */
  function Ordered(entries: seq<Node>): seq<Node> { Sort(entries, NameOf) }

  // ---------- size ----------

  function NodeSize(n: Node): nat {
    match n
    case File(_) => 1
    case Dir(_, entries) => 1 + Size(entries)
  }

  function Size(nodes: seq<Node>): nat {
    if nodes == [] then 0 else NodeSize(nodes[0]) + Size(nodes[1..])
  }

  lemma {:induction false} SizeInsert(n: Node, s: seq<Node>)
    ensures Size(Insert(n, s, NameOf)) == NodeSize(n) + Size(s)
  {
    if s == [] {
    } else if Leq(NameOf(n), NameOf(s[0])) {
      assert ([n] + s)[1..] == s;
    } else {
      SizeInsert(n, s[1..]);
      assert ([s[0]] + Insert(n, s[1..], NameOf))[1..] == Insert(n, s[1..], NameOf);
    }
  }

  lemma {:induction false} SizeOrdered(entries: seq<Node>)
    ensures Size(Ordered(entries)) == Size(entries)
  {
    if entries != [] {
      SizeOrdered(entries[1..]);
      SizeInsert(entries[0], Sort(entries[1..], NameOf));
    }
  }

  // ---------- the recursive reference ----------

  function FilesIn(at: Path, list: seq<Node>): seq<Path> {
    if list == [] then []
    else (if list[0].File? then [at + [list[0].name]] else []) + FilesIn(at, list[1..])
  }

  /** Unbounded: a directory's files by name, then its subdirectories by name. */
  function Walk(at: Path, entries: seq<Node>): seq<Path>
    decreases Size(entries), 1, 0
  {
    SizeOrdered(entries);
    FilesIn(at, Ordered(entries)) + WalkDirs(at, Ordered(entries))
  }

  function WalkDirs(at: Path, list: seq<Node>): seq<Path>
    decreases Size(list), 0, |list|
  {
    if list == [] then []
    else
      assert Size(list) == NodeSize(list[0]) + Size(list[1..]);
      (if list[0].Dir? then Walk(at + [list[0].name], list[0].entries) else []) + WalkDirs(at, list[1..])
  }

  /** Some non-empty directory lies below the depth limit. */
  ghost predicate Deep(entries: seq<Node>, depth: nat, maxDepth: nat)
    requires depth <= maxDepth
    decreases maxDepth - depth
  {
    exists n :: n in entries && n.Dir? &&
                if depth == maxDepth then n.entries != [] else Deep(n.entries, depth + 1, maxDepth)
  }

  // ---------- what the traversal looks at, in order ----------

  datatype Visit = Found(path: Path) | TooDeep(path: Path)

  function ScanOne(at: Path, n: Node, depth: nat, maxDepth: nat): seq<Visit> {
    if n.File? then [Found(at + [n.name])]
    else if depth == maxDepth && n.entries != [] then [TooDeep(at + [n.name])]
    else []
  }

  function Scan(at: Path, list: seq<Node>, depth: nat, maxDepth: nat): seq<Visit> {
    if list == [] then [] else ScanOne(at, list[0], depth, maxDepth) + Scan(at, list[1..], depth, maxDepth)
  }

  function Visits(at: Path, entries: seq<Node>, depth: nat, maxDepth: nat): seq<Visit>
    requires depth <= maxDepth
    decreases Size(entries), 1, 0
  {
    SizeOrdered(entries);
    Scan(at, Ordered(entries), depth, maxDepth)
    + if depth < maxDepth then Below(at, Ordered(entries), depth, maxDepth) else []
  }

  function Below(at: Path, list: seq<Node>, depth: nat, maxDepth: nat): seq<Visit>
    requires depth < maxDepth
    decreases Size(list), 0, |list|
  {
    if list == [] then []
    else
      assert Size(list) == NodeSize(list[0]) + Size(list[1..]);
      (if list[0].Dir? then Visits(at + [list[0].name], list[0].entries, depth + 1, maxDepth) else [])
      + Below(at, list[1..], depth, maxDepth)
  }

  // ---------- stopping ----------

  datatype Ending = Exhausted | TooManyFiles | DepthExceeded(at: Path) | BadLimits | NotADirectory

  datatype Output = Output(yielded: seq<Path>, ending: Ending)

  /** Yield files while there is room; stop at the first violation. */
  function Cut(visits: seq<Visit>, room: nat): Output {
    if visits == [] then Output([], Exhausted)
    else match visits[0]
      case TooDeep(p) => Output([], DepthExceeded(p))
      case Found(p) =>
        if room == 0 then Output([], TooManyFiles)
        else
          var rest := Cut(visits[1..], room - 1);
          Output([p] + rest.yielded, rest.ending)
  }

  lemma {:induction false} CutAppend(a: seq<Visit>, b: seq<Visit>, room: nat)
    ensures |Cut(a, room).yielded| <= room
    ensures Cut(a, room).ending != Exhausted ==> Cut(a + b, room) == Cut(a, room)
    ensures Cut(a, room).ending == Exhausted ==>
              var rest := Cut(b, room - |Cut(a, room).yielded|);
              Cut(a + b, room) == Output(Cut(a, room).yielded + rest.yielded, rest.ending)
  {
    if a == [] {
      assert a + b == b;
    } else {
      assert (a + b)[1..] == a[1..] + b;
      if a[0].Found? && room > 0 {
        CutAppend(a[1..], b, room - 1);
      }
    }
  }

  // ---------- the traversal itself ----------

  /** A directory on the stack. */
  datatype Frame = Frame(at: Path, entries: seq<Node>, depth: nat)

  predicate FramesOk(stack: seq<Frame>, maxDepth: nat) {
    stack == [] || (stack[|stack| - 1].depth <= maxDepth && FramesOk(stack[..|stack| - 1], maxDepth))
  }

  /** What is still to be visited: the top of the stack is its last element. */
  function Pending(stack: seq<Frame>, maxDepth: nat): seq<Visit>
    requires FramesOk(stack, maxDepth)
  {
    if stack == [] then []
    else
      var top := stack[|stack| - 1];
      Visits(top.at, top.entries, top.depth, maxDepth) + Pending(stack[..|stack| - 1], maxDepth)
  }

  /** Total size of the trees on the stack: the termination measure. */
  function Weight(stack: seq<Frame>): nat {
    if stack == [] then 0 else 1 + Size(stack[|stack| - 1].entries) + Weight(stack[..|stack| - 1])
  }

  function Child(at: Path, n: Node, depth: nat): seq<Frame> {
    if n.Dir? then [Frame(at + [n.name], n.entries, depth + 1)] else []
  }

  function Children(at: Path, list: seq<Node>, depth: nat, maxDepth: nat): seq<Frame> {
    if list == [] || depth >= maxDepth then []
    else Child(at, list[0], depth) + Children(at, list[1..], depth, maxDepth)
  }

  function Reversed<T>(s: seq<T>): seq<T> {
    if s == [] then [] else Reversed(s[1..]) + [s[0]]
  }

  lemma Regrouped<T>(a: seq<T>, b: seq<T>, c: seq<T>)
    ensures a + (b + c) == (a + b) + c
  {}

  lemma Pushed(stack: seq<Frame>, frame: Frame, maxDepth: nat)
    requires FramesOk(stack, maxDepth) && frame.depth <= maxDepth
    ensures FramesOk(stack + [frame], maxDepth)
    ensures Pending(stack + [frame], maxDepth)
         == Visits(frame.at, frame.entries, frame.depth, maxDepth) + Pending(stack, maxDepth)
    ensures Weight(stack + [frame]) == 1 + Size(frame.entries) + Weight(stack)
  {
    var pushed := stack + [frame];
    assert pushed[..|pushed| - 1] == stack;
  }

  /** The stack after the subdirectories of `list` are pushed, last first. */
  function Push(stack: seq<Frame>, at: Path, list: seq<Node>, depth: nat): seq<Frame> {
    if list == [] then stack else Push(stack, at, list[1..], depth) + Child(at, list[0], depth)
  }

  lemma {:induction false} PushIsReversal(stack: seq<Frame>, at: Path, list: seq<Node>, depth: nat, maxDepth: nat)
    requires depth < maxDepth
    ensures Push(stack, at, list, depth) == stack + Reversed(Children(at, list, depth, maxDepth))
  {
    if list != [] {
      PushIsReversal(stack, at, list[1..], depth, maxDepth);
      var others := Children(at, list[1..], depth, maxDepth);
      assert Children(at, list, depth, maxDepth) == Child(at, list[0], depth) + others;
      if list[0].Dir? {
        ReversedCons(Child(at, list[0], depth)[0], others);
      } else {
        assert Child(at, list[0], depth) + others == others;
      }
    }
  }

  /** Pushing the children in reverse leaves the directories below to be visited next, in order. */
  lemma {:induction false} PushedChildren(stack: seq<Frame>, at: Path, list: seq<Node>, depth: nat, maxDepth: nat)
    requires FramesOk(stack, maxDepth) && depth < maxDepth
    ensures var pushed := Push(stack, at, list, depth);
      && FramesOk(pushed, maxDepth)
      && Pending(pushed, maxDepth) == Below(at, list, depth, maxDepth) + Pending(stack, maxDepth)
      && Weight(pushed) <= Size(list) + Weight(stack)
  {
    if list == [] {
    } else {
      PushedChildren(stack, at, list[1..], depth, maxDepth);
      var before := Push(stack, at, list[1..], depth);
      assert Size(list) == NodeSize(list[0]) + Size(list[1..]);
      if list[0].Dir? {
        var child := Frame(at + [list[0].name], list[0].entries, depth + 1);
        Pushed(before, child, maxDepth);
        Regrouped(Visits(child.at, child.entries, child.depth, maxDepth), Below(at, list[1..], depth, maxDepth),
                  Pending(stack, maxDepth));
      } else {
        assert before + [] == before;
        assert [] + Below(at, list[1..], depth, maxDepth) == Below(at, list[1..], depth, maxDepth);
      }
    }
  }

  lemma ReversedCons(x: Frame, s: seq<Frame>)
    ensures Reversed([x] + s) == Reversed(s) + [x]
  {
    assert ([x] + s)[1..] == s;
  }

  /** The whole output is what has been yielded followed by what the remaining visits give. */
  ghost predicate Resumes(whole: Output, yielded: seq<Path>, rest: seq<Visit>, maxFiles: nat) {
    && |yielded| <= maxFiles
    && var more := Cut(rest, maxFiles - |yielded|);
       whole == Output(yielded + more.yielded, more.ending)
  }

  lemma Resume(whole: Output, yielded: seq<Path>, first: seq<Visit>, rest: seq<Visit>, maxFiles: nat)
    requires Resumes(whole, yielded, first + rest, maxFiles)
    ensures var now := Cut(first, maxFiles - |yielded|);
      if now.ending == Exhausted then Resumes(whole, yielded + now.yielded, rest, maxFiles)
      else whole == Output(yielded + now.yielded, now.ending)
  {
    var room := maxFiles - |yielded|;
    var now := Cut(first, room);
    CutAppend(first, rest, room);
    if now.ending == Exhausted {
      assert room - |now.yielded| == maxFiles - |yielded + now.yielded|;
      Regrouped(yielded, now.yielded, Cut(rest, room - |now.yielded|).yielded);
    }
  }

  lemma CutOne(visits: seq<Visit>, room: nat)
    requires |visits| <= 1
    ensures Cut(visits, room) ==
      if visits == [] then Output([], Exhausted)
      else if visits[0].TooDeep? then Output([], DepthExceeded(visits[0].path))
      else if room == 0 then Output([], TooManyFiles)
      else Output([visits[0].path], Exhausted)
  {
    if |visits| == 1 {
      assert visits[1..] == [];
    }
  }

  /** Entries before `k` have been handled. */
  ghost predicate Scanning(whole: Output, yielded: seq<Path>, children: seq<Frame>, at: Path, list: seq<Node>, k: nat,
                           depth: nat, maxDepth: nat, maxFiles: nat)
    requires k <= |list|
  {
    && Resumes(whole, yielded, Scan(at, list[k..], depth, maxDepth), maxFiles)
    && Children(at, list, depth, maxDepth) == children + Children(at, list[k..], depth, maxDepth)
  }

  lemma ScanFrom(at: Path, list: seq<Node>, k: nat, depth: nat, maxDepth: nat)
    requires k < |list|
    ensures Scan(at, list[k..], depth, maxDepth)
         == ScanOne(at, list[k], depth, maxDepth) + Scan(at, list[k + 1..], depth, maxDepth)
    ensures Children(at, list[k..], depth, maxDepth)
         == (if depth < maxDepth then Child(at, list[k], depth) else [])
            + Children(at, list[k + 1..], depth, maxDepth)
  {
    assert list[k..][0] == list[k] && list[k..][1..] == list[k + 1..];
  }

  lemma ScanStep(whole: Output, yielded: seq<Path>, children: seq<Frame>, at: Path, list: seq<Node>, k: nat,
                 depth: nat, maxDepth: nat, maxFiles: nat)
    requires k < |list| && Scanning(whole, yielded, children, at, list, k, depth, maxDepth, maxFiles)
    ensures |yielded| <= maxFiles
    ensures var now := Cut(ScanOne(at, list[k], depth, maxDepth), maxFiles - |yielded|);
      if now.ending == Exhausted
      then Scanning(whole, yielded + now.yielded,
                    children + if depth < maxDepth then Child(at, list[k], depth) else [],
                    at, list, k + 1, depth, maxDepth, maxFiles)
      else whole == Output(yielded + now.yielded, now.ending)
  {
    ScanFrom(at, list, k, depth, maxDepth);
    Resume(whole, yielded, ScanOne(at, list[k], depth, maxDepth), Scan(at, list[k + 1..], depth, maxDepth), maxFiles);
    Regrouped(children, if depth < maxDepth then Child(at, list[k], depth) else [],
              Children(at, list[k + 1..], depth, maxDepth));
  }

  /** What handling the entry `k` does. */
  lemma ScanEntry(whole: Output, yielded: seq<Path>, children: seq<Frame>, at: Path, list: seq<Node>, k: nat,
                  depth: nat, maxDepth: nat, maxFiles: nat)
    requires k < |list| && depth <= maxDepth
    requires Scanning(whole, yielded, children, at, list, k, depth, maxDepth, maxFiles)
    ensures |yielded| <= maxFiles
    ensures var entry := list[k];
            var path := at + [entry.name];
            if entry.Dir? && depth < maxDepth then
              Scanning(whole, yielded, children + [Frame(path, entry.entries, depth + 1)], at, list, k + 1, depth,
                       maxDepth, maxFiles)
            else if entry.Dir? && entry.entries != [] then whole == Output(yielded, DepthExceeded(path))
            else if entry.Dir? then Scanning(whole, yielded, children, at, list, k + 1, depth, maxDepth, maxFiles)
            else if |yielded| + 1 > maxFiles then whole == Output(yielded, TooManyFiles)
            else Scanning(whole, yielded + [path], children, at, list, k + 1, depth, maxDepth, maxFiles)
  {
    ScanStep(whole, yielded, children, at, list, k, depth, maxDepth, maxFiles);
    CutOne(ScanOne(at, list[k], depth, maxDepth), maxFiles - |yielded|);
    assert yielded + [] == yielded && children + [] == children;
  }

  /** The loop over the sorted entries of one directory, with `maxFiles` still allowed. */
  method ScanDirectory(at: Path, list: seq<Node>, depth: nat, maxDepth: nat, maxFiles: nat)
    returns (yielded: seq<Path>, ending: Ending, children: seq<Frame>)
    requires depth <= maxDepth
    ensures Output(yielded, ending) == Cut(Scan(at, list, depth, maxDepth), maxFiles)
    ensures ending == Exhausted ==> children == Children(at, list, depth, maxDepth)
  {
    yielded, children, ending := [], [], Exhausted;
    ghost var whole := Cut(Scan(at, list, depth, maxDepth), maxFiles);
    assert list[0..] == list;
    assert Scanning(whole, yielded, children, at, list, 0, depth, maxDepth, maxFiles);
    for k := 0 to |list|
      invariant Scanning(whole, yielded, children, at, list, k, depth, maxDepth, maxFiles)
    {
      var entry := list[k];
      ScanEntry(whole, yielded, children, at, list, k, depth, maxDepth, maxFiles);
      if entry.Dir? {
        if depth < maxDepth {
          children := children + [Frame(at + [entry.name], entry.entries, depth + 1)];
        } else if depth == maxDepth {
          if entry.entries != [] {
            return yielded, DepthExceeded(at + [entry.name]), children;
          }
        }
      } else {
        if |yielded| + 1 > maxFiles {
          return yielded, TooManyFiles, children;
        }
        yielded := yielded + [at + [entry.name]];
      }
    }
    ending := Exhausted;
    ScanDone(whole, yielded, children, at, list, depth, maxDepth, maxFiles);
  }

  lemma ScanDone(whole: Output, yielded: seq<Path>, children: seq<Frame>, at: Path, list: seq<Node>,
                 depth: nat, maxDepth: nat, maxFiles: nat)
    requires Scanning(whole, yielded, children, at, list, |list|, depth, maxDepth, maxFiles)
    ensures whole == Output(yielded, Exhausted) && children == Children(at, list, depth, maxDepth)
  {
    assert list[|list|..] == [];
  }

  /** What the path names. */
  datatype Root = Absent | RegularFile | Directory(entries: seq<Node>)

  function Expected(root: Root, maxDepth: int, maxFiles: int): Output {
    if maxDepth < 0 || maxFiles < 0 then Output([], BadLimits)
    else match root
      case Absent => Output([], Exhausted)
      case RegularFile => Output([], NotADirectory)
      case Directory(entries) => Cut(Visits([], entries, 0, maxDepth), maxFiles)
  }

  /** What a directory leaves to be visited after its own entries. */
  function NextBelow(top: Frame, maxDepth: nat): seq<Visit> {
    if top.depth < maxDepth then Below(top.at, Ordered(top.entries), top.depth, maxDepth) else []
  }

  lemma VisitsSplit(top: Frame, maxDepth: nat)
    requires top.depth <= maxDepth
    ensures Visits(top.at, top.entries, top.depth, maxDepth)
         == Scan(top.at, Ordered(top.entries), top.depth, maxDepth) + NextBelow(top, maxDepth)
  {}

  lemma Popped(stack: seq<Frame>, maxDepth: nat)
    requires FramesOk(stack, maxDepth) && stack != []
    ensures var top, rest := stack[|stack| - 1], stack[..|stack| - 1];
      && FramesOk(rest, maxDepth)
      && Pending(stack, maxDepth)
         == Scan(top.at, Ordered(top.entries), top.depth, maxDepth)
            + (NextBelow(top, maxDepth) + Pending(rest, maxDepth))
      && Weight(stack) == 1 + Size(top.entries) + Weight(rest)
  {
    var top, rest := stack[|stack| - 1], stack[..|stack| - 1];
    VisitsSplit(top, maxDepth);
    Regrouped(Scan(top.at, Ordered(top.entries), top.depth, maxDepth), NextBelow(top, maxDepth),
              Pending(rest, maxDepth));
  }

  lemma Extended(rest: seq<Frame>, top: Frame, maxDepth: nat)
    requires FramesOk(rest, maxDepth) && top.depth <= maxDepth
    ensures var stack := rest + Reversed(Children(top.at, Ordered(top.entries), top.depth, maxDepth));
      && FramesOk(stack, maxDepth)
      && Pending(stack, maxDepth) == NextBelow(top, maxDepth) + Pending(rest, maxDepth)
      && Weight(stack) <= Size(top.entries) + Weight(rest)
  {
    var list := Ordered(top.entries);
    SizeOrdered(top.entries);
    if top.depth < maxDepth {
      PushedChildren(rest, top.at, list, top.depth, maxDepth);
      PushIsReversal(rest, top.at, list, top.depth, maxDepth);
    } else {
      assert Children(top.at, list, top.depth, maxDepth) == [];
      assert rest + Reversed<Frame>([]) == rest;
      assert [] + Pending(rest, maxDepth) == Pending(rest, maxDepth);
    }
  }

  ghost predicate Walking(whole: Output, yielded: seq<Path>, stack: seq<Frame>, maxDepth: nat, maxFiles: nat) {
    FramesOk(stack, maxDepth) && Resumes(whole, yielded, Pending(stack, maxDepth), maxFiles)
  }

  lemma Started(whole: Output, base: Frame, maxDepth: nat, maxFiles: nat)
    requires base.depth <= maxDepth
    requires whole == Cut(Visits(base.at, base.entries, base.depth, maxDepth), maxFiles)
    ensures Walking(whole, [], [base], maxDepth, maxFiles)
  {
    assert [] + [base] == [base];
    Pushed([], base, maxDepth);
    var visits := Visits(base.at, base.entries, base.depth, maxDepth);
    assert visits + [] == visits;
    assert Pending([base], maxDepth) == visits;
    var more := Cut(visits, maxFiles);
    assert [] + more.yielded == more.yielded;
  }

  /** Handling the directory on top either ends the traversal or leaves a smaller stack. */
  lemma WalkStep(whole: Output, yielded: seq<Path>, stack: seq<Frame>, maxDepth: nat, maxFiles: nat)
    requires Walking(whole, yielded, stack, maxDepth, maxFiles) && stack != []
    ensures |yielded| <= maxFiles
    ensures var top, rest := stack[|stack| - 1], stack[..|stack| - 1];
      var list := Ordered(top.entries);
      var now := Cut(Scan(top.at, list, top.depth, maxDepth), maxFiles - |yielded|);
      var next := rest + Reversed(Children(top.at, list, top.depth, maxDepth));
      && top.depth <= maxDepth
      && (now.ending != Exhausted ==> whole == Output(yielded + now.yielded, now.ending))
      && (now.ending == Exhausted ==> Walking(whole, yielded + now.yielded, next, maxDepth, maxFiles))
      && Weight(next) < Weight(stack)
  {
    var top, rest := stack[|stack| - 1], stack[..|stack| - 1];
    Popped(stack, maxDepth);
    Resume(whole, yielded, Scan(top.at, Ordered(top.entries), top.depth, maxDepth),
           NextBelow(top, maxDepth) + Pending(rest, maxDepth), maxFiles);
    Extended(rest, top, maxDepth);
  }

  /** The loop over the stack, from a base directory. */
  method Drain(base: Frame, maxDepth: nat, maxFiles: nat) returns (out: Output)
    requires base.depth <= maxDepth
    ensures out == Cut(Visits(base.at, base.entries, base.depth, maxDepth), maxFiles)
  {
    var yielded: seq<Path> := [];
    var stack := [base];
    ghost var whole := Cut(Visits(base.at, base.entries, base.depth, maxDepth), maxFiles);
    Started(whole, base, maxDepth, maxFiles);
    while stack != []
      invariant Walking(whole, yielded, stack, maxDepth, maxFiles)
      decreases Weight(stack)
    {
      var top, rest := stack[|stack| - 1], stack[..|stack| - 1];
      WalkStep(whole, yielded, stack, maxDepth, maxFiles);
      var found, ending, children :=
        ScanDirectory(top.at, Ordered(top.entries), top.depth, maxDepth, maxFiles - |yielded|);
      yielded := yielded + found;
      if ending != Exhausted {
        return Output(yielded, ending);
      }
      stack := rest + Reversed(children);
    }
    Drained(whole, yielded, maxDepth, maxFiles);
    out := Output(yielded, Exhausted);
  }

  lemma Drained(whole: Output, yielded: seq<Path>, maxDepth: nat, maxFiles: nat)
    requires Walking(whole, yielded, [], maxDepth, maxFiles)
    ensures whole == Output(yielded, Exhausted)
  {}

  method IterFiles(root: Root, maxDepth: int, maxFiles: int) returns (out: Output)
    ensures out == Expected(root, maxDepth, maxFiles)
    ensures maxDepth < 0 || maxFiles < 0 ==> out == Output([], BadLimits)
    ensures maxDepth >= 0 && maxFiles >= 0 && root.Absent? ==> out == Output([], Exhausted)
    ensures maxDepth >= 0 && maxFiles >= 0 && root.RegularFile? ==> out == Output([], NotADirectory)
  {
    if maxDepth < 0 || maxFiles < 0 {
      return Output([], BadLimits);
    }
    if root.Absent? {
      return Output([], Exhausted);
    }
    if root.RegularFile? {
      return Output([], NotADirectory);
    }
    out := Drain(Frame([], root.entries, 0), maxDepth, maxFiles);
  }

  // ---------- against the recursive walk ----------

  predicate Clean(visits: seq<Visit>) {
    forall k :: 0 <= k < |visits| ==> visits[k].Found?
  }

  /** The files found before the first violation of the depth limit. */
  function UpTo(visits: seq<Visit>): seq<Path> {
    if visits == [] || visits[0].TooDeep? then [] else [visits[0].path] + UpTo(visits[1..])
  }

  lemma {:induction false} UpToAppend(a: seq<Visit>, b: seq<Visit>)
    ensures UpTo(a + b) == if Clean(a) then UpTo(a) + UpTo(b) else UpTo(a)
    ensures Clean(a + b) <==> Clean(a) && Clean(b)
  {
    if a == [] {
      assert a + b == b;
    } else {
      assert (a + b)[1..] == a[1..] + b;
      assert (a + b)[0] == a[0];
      UpToAppend(a[1..], b);
      CleanCons(a);
      CleanCons(a + b);
    }
  }

  lemma CleanCons(v: seq<Visit>)
    requires v != []
    ensures Clean(v) <==> v[0].Found? && Clean(v[1..])
  {
    if v[0].Found? && Clean(v[1..]) {
      forall k | 0 <= k < |v| ensures v[k].Found? {
        if k > 0 { assert v[k] == v[1..][k - 1]; }
      }
    }
  }

  /** Room, depth and content decide where the traversal stops. */
  lemma {:induction false} CutCases(visits: seq<Visit>, room: nat)
    ensures var out := Cut(visits, room);
      && (out.ending == TooManyFiles <==> |UpTo(visits)| > room)
      && (out.ending.DepthExceeded? <==> |UpTo(visits)| <= room && !Clean(visits))
      && (out.ending == Exhausted <==> |UpTo(visits)| <= room && Clean(visits))
      && out.yielded == (if |UpTo(visits)| > room then UpTo(visits)[..room] else UpTo(visits))
      && !out.ending.BadLimits? && !out.ending.NotADirectory?
  {
    if visits != [] {
      CleanCons(visits);
      if visits[0].Found? && room > 0 {
        CutCases(visits[1..], room - 1);
      }
    }
  }

  /** How a list of visits compares with the unbounded walk. */
  predicate Compares(visits: seq<Visit>, walk: seq<Path>) {
    UpTo(visits) <= walk && (Clean(visits) ==> UpTo(visits) == walk)
  }

  lemma ComparesAppend(a: seq<Visit>, x: seq<Path>, b: seq<Visit>, y: seq<Path>)
    requires Compares(a, x) && Compares(b, y)
    ensures Compares(a + b, x + y)
  {
    UpToAppend(a, b);
  }

  lemma {:induction false} ScanCompares(at: Path, list: seq<Node>, depth: nat, maxDepth: nat)
    ensures Compares(Scan(at, list, depth, maxDepth), FilesIn(at, list))
    ensures Clean(Scan(at, list, depth, maxDepth))
       <==> !(depth == maxDepth && exists n :: n in list && n.Dir? && n.entries != [])
  {
    if list != [] {
      ScanCompares(at, list[1..], depth, maxDepth);
      ComparesAppend(ScanOne(at, list[0], depth, maxDepth), if list[0].File? then [at + [list[0].name]] else [],
                     Scan(at, list[1..], depth, maxDepth), FilesIn(at, list[1..]));
      UpToAppend(ScanOne(at, list[0], depth, maxDepth), Scan(at, list[1..], depth, maxDepth));
      assert forall n :: n in list <==> n == list[0] || n in list[1..];
    }
  }

  lemma {:induction false} VisitsCompare(at: Path, entries: seq<Node>, depth: nat, maxDepth: nat)
    requires depth <= maxDepth
    ensures Compares(Visits(at, entries, depth, maxDepth), Walk(at, entries))
    ensures Clean(Visits(at, entries, depth, maxDepth)) <==> !Deep(entries, depth, maxDepth)
    decreases Size(entries), 1, 0
  {
    var list := Ordered(entries);
    SizeOrdered(entries);
    SameNodes(entries);
    ScanCompares(at, list, depth, maxDepth);
    var scan := Scan(at, list, depth, maxDepth);
    if depth < maxDepth {
      BelowCompares(at, list, depth, maxDepth);
      var below := Below(at, list, depth, maxDepth);
      ComparesAppend(scan, FilesIn(at, list), below, WalkDirs(at, list));
      UpToAppend(scan, below);
    } else {
      assert Visits(at, entries, depth, maxDepth) == scan;
      if Clean(scan) {
        EmptyDirs(at, list);
      }
    }
  }

  lemma {:induction false} BelowCompares(at: Path, list: seq<Node>, depth: nat, maxDepth: nat)
    requires depth < maxDepth
    ensures Compares(Below(at, list, depth, maxDepth), WalkDirs(at, list))
    ensures Clean(Below(at, list, depth, maxDepth)) <==> !Deep(list, depth, maxDepth)
    decreases Size(list), 0, |list|
  {
    if list != [] {
      var head := list[0];
      assert Size(list) == NodeSize(head) + Size(list[1..]);
      var first := if head.Dir? then Visits(at + [head.name], head.entries, depth + 1, maxDepth) else [];
      var walked := if head.Dir? then Walk(at + [head.name], head.entries) else [];
      if head.Dir? {
        VisitsCompare(at + [head.name], head.entries, depth + 1, maxDepth);
      }
      BelowCompares(at, list[1..], depth, maxDepth);
      ComparesAppend(first, walked, Below(at, list[1..], depth, maxDepth), WalkDirs(at, list[1..]));
      UpToAppend(first, Below(at, list[1..], depth, maxDepth));
      DeepSplit(list, depth, maxDepth);
    }
  }

  lemma DeepSplit(list: seq<Node>, depth: nat, maxDepth: nat)
    requires depth < maxDepth && list != []
    ensures Deep(list, depth, maxDepth)
       <==> (list[0].Dir? && Deep(list[0].entries, depth + 1, maxDepth)) || Deep(list[1..], depth, maxDepth)
  {
    assert forall n :: n in list <==> n == list[0] || n in list[1..];
  }

  lemma SameNodes(entries: seq<Node>)
    ensures forall n :: n in entries <==> n in Ordered(entries)
  {
    SortMembers(entries, NameOf);
  }

  lemma EmptyWalk(at: Path)
    ensures Walk(at, []) == []
  {
    assert Ordered([]) == [];
    assert FilesIn(at, []) == [] && WalkDirs(at, []) == [];
  }

  lemma {:induction false} EmptyDirs(at: Path, list: seq<Node>)
    requires forall n :: n in list && n.Dir? ==> n.entries == []
    ensures WalkDirs(at, list) == []
  {
    if list != [] {
      EmptyDirs(at, list[1..]);
      if list[0].Dir? {
        EmptyWalk(at + [list[0].name]);
      }
    }
  }

  // ---------- where the depth limit strikes ----------

  /** What a recursive scan without limits meets: files, and directories that are not empty. */
  datatype Meeting = AFile(path: Path) | ADirectory(path: Path)

  function MeetOne(at: Path, n: Node): seq<Meeting> {
    if n.File? then [AFile(at + [n.name])] else if n.entries != [] then [ADirectory(at + [n.name])] else []
  }

  function MeetAll(at: Path, list: seq<Node>): seq<Meeting> {
    if list == [] then [] else MeetOne(at, list[0]) + MeetAll(at, list[1..])
  }

  /** In order: the entries of the directory by name, then what lies below each of its subdirectories by name. */
  function Meets(at: Path, entries: seq<Node>): seq<Meeting>
    decreases Size(entries), 1, 0
  {
    SizeOrdered(entries);
    MeetAll(at, Ordered(entries)) + MeetsBelow(at, Ordered(entries))
  }

  function MeetsBelow(at: Path, list: seq<Node>): seq<Meeting>
    decreases Size(list), 0, |list|
  {
    if list == [] then []
    else
      assert Size(list) == NodeSize(list[0]) + Size(list[1..]);
      (if list[0].Dir? then Meets(at + [list[0].name], list[0].entries) else []) + MeetsBelow(at, list[1..])
  }

  predicate At(m: Meeting, level: nat) { m.ADirectory? && |m.path| == level }

  /** The first directory met at this level. */
  function FirstAt(meetings: seq<Meeting>, level: nat): Option<Path> {
    if meetings == [] then None
    else if At(meetings[0], level) then Some(meetings[0].path)
    else FirstAt(meetings[1..], level)
  }

  /** The files met before it. */
  function FilesBefore(meetings: seq<Meeting>, level: nat): seq<Path> {
    if meetings == [] || At(meetings[0], level) then []
    else (if meetings[0].AFile? then [meetings[0].path] else []) + FilesBefore(meetings[1..], level)
  }

  lemma {:induction false} FirstAtAppend(a: seq<Meeting>, b: seq<Meeting>, level: nat)
    ensures FirstAt(a + b, level) == if FirstAt(a, level).Some? then FirstAt(a, level) else FirstAt(b, level)
    ensures FilesBefore(a + b, level)
         == if FirstAt(a, level).Some? then FilesBefore(a, level) else FilesBefore(a, level) + FilesBefore(b, level)
  {
    if a == [] {
      assert a + b == b;
    } else {
      assert (a + b)[1..] == a[1..] + b && (a + b)[0] == a[0];
      FirstAtAppend(a[1..], b, level);
    }
  }

  function FirstDeep(visits: seq<Visit>): Option<Path> {
    if visits == [] then None else if visits[0].TooDeep? then Some(visits[0].path) else FirstDeep(visits[1..])
  }

  lemma {:induction false} FirstDeepAppend(a: seq<Visit>, b: seq<Visit>)
    ensures FirstDeep(a + b) == if FirstDeep(a).Some? then FirstDeep(a) else FirstDeep(b)
    ensures Clean(a) <==> FirstDeep(a).None?
  {
    if a == [] {
      assert a + b == b;
    } else {
      assert (a + b)[1..] == a[1..] + b && (a + b)[0] == a[0];
      FirstDeepAppend(a[1..], b);
      CleanCons(a);
    }
  }

  /** The visits go as far as the meetings do before the first directory at this level. */
  predicate Tracks(visits: seq<Visit>, meetings: seq<Meeting>, level: nat) {
    FirstDeep(visits) == FirstAt(meetings, level) && UpTo(visits) == FilesBefore(meetings, level)
  }

  lemma TracksAppend(a: seq<Visit>, x: seq<Meeting>, b: seq<Visit>, y: seq<Meeting>, level: nat)
    requires Tracks(a, x, level) && (FirstDeep(a).None? ==> Tracks(b, y, level))
    ensures Tracks(a + b, x + y, level)
  {
    FirstAtAppend(x, y, level);
    FirstDeepAppend(a, b);
    UpToAppend(a, b);
  }

  lemma OneTracks(at: Path, n: Node, depth: nat, maxDepth: nat)
    requires |at| == depth <= maxDepth
    ensures Tracks(ScanOne(at, n, depth, maxDepth), MeetOne(at, n), maxDepth + 1)
  {
    var p := at + [n.name];
    var level := maxDepth + 1;
    assert UpTo([]) == [] && FilesBefore([], level) == [] && FirstDeep([]) == None && FirstAt([], level) == None;
    assert [Found(p)][1..] == [] && [TooDeep(p)][1..] == [] && [AFile(p)][1..] == [] && [ADirectory(p)][1..] == [];
    assert UpTo([Found(p)]) == [p] && FilesBefore([AFile(p)], level) == [p];
    assert UpTo([TooDeep(p)]) == [] && FilesBefore([ADirectory(p)], level) == [];
  }

  lemma {:induction false} ScanTracks(at: Path, list: seq<Node>, depth: nat, maxDepth: nat)
    requires |at| == depth <= maxDepth
    ensures Tracks(Scan(at, list, depth, maxDepth), MeetAll(at, list), maxDepth + 1)
  {
    if list != [] {
      ScanTracks(at, list[1..], depth, maxDepth);
      var one, met := ScanOne(at, list[0], depth, maxDepth), MeetOne(at, list[0]);
      OneTracks(at, list[0], depth, maxDepth);
      TracksAppend(one, met, Scan(at, list[1..], depth, maxDepth), MeetAll(at, list[1..]), maxDepth + 1);
    }
  }

  lemma {:induction false} NothingBelowEmpty(at: Path, list: seq<Node>)
    requires forall n :: n in list && n.Dir? ==> n.entries == []
    ensures MeetsBelow(at, list) == []
  {
    if list != [] {
      NothingBelowEmpty(at, list[1..]);
      if list[0].Dir? {
        EmptyMeets(at + [list[0].name]);
      }
    }
  }

  lemma EmptyMeets(at: Path)
    ensures Meets(at, []) == []
  {
    assert Ordered([]) == [];
    assert MeetAll(at, []) == [] && MeetsBelow(at, []) == [];
  }

  lemma {:induction false} VisitsTrack(at: Path, entries: seq<Node>, depth: nat, maxDepth: nat)
    requires |at| == depth <= maxDepth
    ensures Tracks(Visits(at, entries, depth, maxDepth), Meets(at, entries), maxDepth + 1)
    decreases Size(entries), 1, 0
  {
    var list := Ordered(entries);
    SizeOrdered(entries);
    ScanTracks(at, list, depth, maxDepth);
    var scan := Scan(at, list, depth, maxDepth);
    if depth < maxDepth {
      BelowTracks(at, list, depth, maxDepth);
      TracksAppend(scan, MeetAll(at, list), Below(at, list, depth, maxDepth), MeetsBelow(at, list), maxDepth + 1);
    } else {
      if FirstDeep(scan).None? {
        FirstDeepAppend(scan, []);
        ScanCompares(at, list, depth, maxDepth);
        NothingBelowEmpty(at, list);
      }
      TracksAppend(scan, MeetAll(at, list), [], MeetsBelow(at, list), maxDepth + 1);
    }
  }

  lemma {:induction false} BelowTracks(at: Path, list: seq<Node>, depth: nat, maxDepth: nat)
    requires |at| == depth < maxDepth
    ensures Tracks(Below(at, list, depth, maxDepth), MeetsBelow(at, list), maxDepth + 1)
    decreases Size(list), 0, |list|
  {
    if list != [] {
      var head := list[0];
      assert Size(list) == NodeSize(head) + Size(list[1..]);
      BelowTracks(at, list[1..], depth, maxDepth);
      if head.Dir? {
        VisitsTrack(at + [head.name], head.entries, depth + 1, maxDepth);
        TracksAppend(Visits(at + [head.name], head.entries, depth + 1, maxDepth), Meets(at + [head.name], head.entries),
                     Below(at, list[1..], depth, maxDepth), MeetsBelow(at, list[1..]), maxDepth + 1);
      } else {
        TracksAppend([], [], Below(at, list[1..], depth, maxDepth), MeetsBelow(at, list[1..]), maxDepth + 1);
      }
    }
  }

  /** Following the names leads to a directory that is not empty. */
  ghost predicate LeadsToDirectory(entries: seq<Node>, names: Path)
    decreases |names|
  {
    names != [] && exists n :: n in entries && n.Dir? && n.name == names[0]
                               && if |names| == 1 then n.entries != [] else LeadsToDirectory(n.entries, names[1..])
  }

  lemma {:induction false} MetInDirectory(at: Path, list: seq<Node>, m: Meeting)
    requires m in MeetAll(at, list) && m.ADirectory?
    ensures |m.path| == |at| + 1 && m.path[..|at|] == at && LeadsToDirectory(list, m.path[|at|..])
  {
    if m in MeetOne(at, list[0]) {
      assert list[0] in list && m.path[|at|..] == [list[0].name];
    } else {
      MetInDirectory(at, list[1..], m);
      MoreNodes(list, m.path[|at|..]);
    }
  }

  lemma MoreNodes(list: seq<Node>, names: Path)
    requires list != [] && LeadsToDirectory(list[1..], names)
    ensures LeadsToDirectory(list, names)
  {
    assert forall n :: n in list[1..] ==> n in list;
  }

  /** Every directory met is one the names lead to. */
  lemma {:induction false} MetIsThere(at: Path, entries: seq<Node>, m: Meeting)
    requires m in Meets(at, entries) && m.ADirectory?
    ensures |m.path| > |at| && m.path[..|at|] == at && LeadsToDirectory(entries, m.path[|at|..])
    decreases Size(entries), 1, 0
  {
    var list := Ordered(entries);
    SizeOrdered(entries);
    SameNodes(entries);
    if m in MeetAll(at, list) {
      MetInDirectory(at, list, m);
    } else {
      MetBelowIsThere(at, list, m);
    }
    SameLeads(entries, list, m.path[|at|..]);
  }

  lemma SameLeads(entries: seq<Node>, list: seq<Node>, names: Path)
    requires forall n :: n in entries <==> n in list
    ensures LeadsToDirectory(entries, names) <==> LeadsToDirectory(list, names)
  {}

  lemma {:induction false} MetBelowIsThere(at: Path, list: seq<Node>, m: Meeting)
    requires m in MeetsBelow(at, list) && m.ADirectory?
    ensures |m.path| > |at| && m.path[..|at|] == at && LeadsToDirectory(list, m.path[|at|..])
    decreases Size(list), 0, |list|
  {
    var head := list[0];
    assert Size(list) == NodeSize(head) + Size(list[1..]);
    if head.Dir? && m in Meets(at + [head.name], head.entries) {
      MetIsThere(at + [head.name], head.entries, m);
      var names := m.path[|at|..];
      assert m.path[..|at|] == (at + [head.name])[..|at|] == at;
      assert names[0] == m.path[..|at| + 1][|at|] == head.name && names[1..] == m.path[|at| + 1..];
      assert head in list;
    } else {
      MetBelowIsThere(at, list[1..], m);
      MoreNodes(list, m.path[|at|..]);
    }
  }

  lemma {:induction false} FirstIsMet(meetings: seq<Meeting>, level: nat)
    requires FirstAt(meetings, level).Some?
    ensures ADirectory(FirstAt(meetings, level).value) in meetings && |FirstAt(meetings, level).value| == level
  {
    if !At(meetings[0], level) {
      FirstIsMet(meetings[1..], level);
    }
  }

  lemma {:induction false} CutAtDeep(visits: seq<Visit>, room: nat)
    ensures Cut(visits, room).ending.DepthExceeded? ==>
              FirstDeep(visits) == Some(Cut(visits, room).ending.at) && Cut(visits, room).yielded == UpTo(visits)
  {
    if visits != [] && visits[0].Found? && room > 0 {
      CutAtDeep(visits[1..], room - 1);
    }
  }

  /** A cut ends at the first violation exactly when there is room for all files before it. */
  lemma CutDeepIff(visits: seq<Visit>, room: nat, p: Path)
    ensures Cut(visits, room).ending == DepthExceeded(p) <==> FirstDeep(visits) == Some(p) && |UpTo(visits)| <= room
    ensures Cut(visits, room).ending == DepthExceeded(p) ==> Cut(visits, room).yielded == UpTo(visits)
  {
    CutCases(visits, room);
    CutAtDeep(visits, room);
    FirstDeepAppend(visits, []);
  }

  lemma FirstLeadsToDirectory(entries: seq<Node>, level: nat, p: Path)
    requires FirstAt(Meets([], entries), level) == Some(p)
    ensures |p| == level && LeadsToDirectory(entries, p)
  {
    FirstIsMet(Meets([], entries), level);
    MetIsThere([], entries, ADirectory(p));
    assert p[0..] == p;
  }

  /** The traversal reports the depth limit at `p` exactly when `p` is the first non-empty directory a recursive
      scan meets one level below `max_depth`, with at most `max_files` files met before it; it has then yielded
      exactly these files. */
  lemma DepthLimitStrikesFirst(entries: seq<Node>, maxDepth: nat, maxFiles: nat, p: Path)
    ensures var out, met := Expected(Directory(entries), maxDepth, maxFiles), Meets([], entries);
      && (out.ending == DepthExceeded(p)
          <==> FirstAt(met, maxDepth + 1) == Some(p) && |FilesBefore(met, maxDepth + 1)| <= maxFiles)
      && (out.ending == DepthExceeded(p) ==>
            && out.yielded == FilesBefore(met, maxDepth + 1)
            && |p| == maxDepth + 1 && LeadsToDirectory(entries, p))
  {
    var visits, met := Visits([], entries, 0, maxDepth), Meets([], entries);
    VisitsTrack([], entries, 0, maxDepth);
    CutDeepIff(visits, maxFiles, p);
    if FirstAt(met, maxDepth + 1) == Some(p) {
      FirstLeadsToDirectory(entries, maxDepth + 1, p);
    }
  }

  /** The reported path is the first non-empty directory met one level below `max_depth`, and what has been
      yielded is what was met before it. */
  ghost predicate StrikesAt(entries: seq<Node>, maxDepth: nat, out: Output)
    requires out.ending.DepthExceeded?
  {
    var met := Meets([], entries);
    && FirstAt(met, maxDepth + 1) == Some(out.ending.at) && out.yielded == FilesBefore(met, maxDepth + 1)
    && |out.ending.at| == maxDepth + 1 && LeadsToDirectory(entries, out.ending.at)
  }

  predicate StrikesWithin(entries: seq<Node>, maxDepth: nat, maxFiles: nat) {
    var met := Meets([], entries);
    FirstAt(met, maxDepth + 1).Some? && |FilesBefore(met, maxDepth + 1)| <= maxFiles
  }

  /** The traversal with its stack and limits refines the recursive walk: what it yields is a prefix of the
      walk.  It ends normally exactly when no more than `max_files` files exist and no non-empty directory lies
      below `max_depth`, and then it has yielded the whole walk; it reports too many files with exactly the
      first `max_files` of the walk; any other ending is the depth limit, at the first such directory, with all
      files met before it. */
  lemma TraversalRefinesWalk(entries: seq<Node>, maxDepth: nat, maxFiles: nat)
    ensures var out, walk := Expected(Directory(entries), maxDepth, maxFiles), Walk([], entries);
      && out.yielded <= walk
      && (out.ending == Exhausted <==> |walk| <= maxFiles && !Deep(entries, 0, maxDepth))
      && (out.ending == Exhausted ==> out.yielded == walk)
      && (out.ending == TooManyFiles ==> |walk| > maxFiles && out.yielded == walk[..maxFiles])
      && (out.ending != Exhausted && out.ending != TooManyFiles ==>
            out.ending.DepthExceeded? && StrikesAt(entries, maxDepth, out) && |out.yielded| <= maxFiles)
      && (out.ending.DepthExceeded? <==> StrikesWithin(entries, maxDepth, maxFiles))
      && (!Deep(entries, 0, maxDepth) && |walk| > maxFiles ==> out.ending == TooManyFiles)
  {
    var visits := Visits([], entries, 0, maxDepth);
    VisitsCompare([], entries, 0, maxDepth);
    CutCases(visits, maxFiles);
    VisitsTrack([], entries, 0, maxDepth);
    FirstDeepAppend(visits, []);
    var out := Expected(Directory(entries), maxDepth, maxFiles);
    if out.ending.DepthExceeded? {
      DepthLimitStrikesFirst(entries, maxDepth, maxFiles, out.ending.at);
    }
  }

  // ---------- what the walk is ----------

  /** Following the names leads to a file. */
  ghost predicate LeadsToFile(entries: seq<Node>, names: Path)
    decreases |names|
  {
    names != [] && exists n :: n in entries && n.name == names[0]
                               && if |names| == 1 then n.File? else n.Dir? && LeadsToFile(n.entries, names[1..])
  }

  lemma {:induction false} FilesInExactly(at: Path, list: seq<Node>, p: Path)
    ensures p in FilesIn(at, list) <==> exists n :: n in list && n.File? && p == at + [n.name]
  {
    if list != [] {
      FilesInExactly(at, list[1..], p);
      assert forall n :: n in list <==> n == list[0] || n in list[1..];
    }
  }

  /** `p` is a file below one of the directories in the list. */
  ghost predicate BelowOne(at: Path, list: seq<Node>, p: Path) {
    && |p| > |at| + 1 && p[..|at|] == at
    && exists n :: n in list && n.Dir? && n.name == p[|at|] && LeadsToFile(n.entries, p[|at| + 1..])
  }

  lemma {:induction false} WalkDirsExactly(at: Path, list: seq<Node>, p: Path)
    ensures p in WalkDirs(at, list) <==> BelowOne(at, list, p)
    decreases Size(list), 0, |list|
  {
    if list != [] {
      var head := list[0];
      assert Size(list) == NodeSize(head) + Size(list[1..]);
      WalkDirsExactly(at, list[1..], p);
      assert forall n :: n in list <==> n == head || n in list[1..];
      if head.Dir? {
        WalkExactly(at + [head.name], head.entries, p);
        OneFurther(at, head.name, p);
      }
    }
  }

  lemma OneFurther(at: Path, name: string, p: Path)
    ensures |p| > |at| + 1 ==>
              (p[..|at| + 1] == at + [name] <==> p[..|at|] == at && p[|at|] == name)
  {
    if |p| > |at| + 1 {
      assert p[..|at| + 1] == p[..|at|] + [p[|at|]];
    }
  }

  /** The walk lists exactly the files of the tree. */
  lemma {:induction false} WalkExactly(at: Path, entries: seq<Node>, p: Path)
    ensures p in Walk(at, entries) <==> |p| > |at| && p[..|at|] == at && LeadsToFile(entries, p[|at|..])
    decreases Size(entries), 1, 0
  {
    var list := Ordered(entries);
    SizeOrdered(entries);
    SameNodes(entries);
    FilesInExactly(at, list, p);
    WalkDirsExactly(at, list, p);
    if |p| > |at| && p[..|at|] == at {
      assert p == at + p[|at|..] && p[|at|..][0] == p[|at|] && p[|at|..][1..] == p[|at| + 1..];
      if |p| == |at| + 1 {
        assert p[|at|..] == [p[|at|]];
      }
    }
  }

  // ---------- in which order ----------

  /** No directory has two entries of one name. */
  ghost predicate WellNamed(entries: seq<Node>) {
    && (forall i, j :: 0 <= i < j < |entries| ==> entries[i].name != entries[j].name)
    && forall i :: 0 <= i < |entries| ==> entries[i].Dir? ==> WellNamed(entries[i].entries)
  }

  /** Where the two paths part, `p` names a file and `q` a file of a later name or something in a subdirectory, or
      both go into subdirectories, `p` into the one of the earlier name. */
  ghost predicate Earlier(p: Path, q: Path) {
    exists k :: PartAt(p, q, k)
  }

  predicate PartAt(p: Path, q: Path, k: nat) {
    && k < |p| && k < |q| && p[..k] == q[..k] && p[k] != q[k]
    && if |p| == k + 1 then |q| == k + 1 ==> Leq(p[k], q[k]) else |q| > k + 1 && Leq(p[k], q[k])
  }

  ghost predicate InOrder(paths: seq<Path>) {
    forall i, j :: 0 <= i < j < |paths| ==> Earlier(paths[i], paths[j])
  }

  lemma InOrderTogether(a: seq<Path>, b: seq<Path>)
    requires InOrder(a) && InOrder(b) && forall p, q :: p in a && q in b ==> Earlier(p, q)
    ensures InOrder(a + b)
  {
    forall i, j | 0 <= i < j < |a + b| ensures Earlier((a + b)[i], (a + b)[j]) {
      if i < |a| && j >= |a| {
        assert (a + b)[i] in a && (a + b)[j] in b;
      }
    }
  }

  /** Sorted by name, with no name twice. */
  ghost predicate ByName(list: seq<Node>) {
    Sorted(list, NameOf) && Distinct(list, NameOf)
  }

  lemma ByNameTail(list: seq<Node>, n: Node)
    requires ByName(list) && list != []
    ensures ByName(list[1..])
    ensures n in list[1..] ==> Leq(list[0].name, n.name) && list[0].name != n.name
  {
    forall i, j | 0 <= i < j < |list[1..]| ensures Leq(NameOf(list[1..][i]), NameOf(list[1..][j])) {
      assert Leq(NameOf(list[i + 1]), NameOf(list[j + 1]));
    }
    DistinctTail(list, NameOf);
    if n in list[1..] {
      var k :| 0 <= k < |list[1..]| && list[1..][k] == n;
      assert NameOf(list[0]) != NameOf(list[k + 1]) && Leq(NameOf(list[0]), NameOf(list[k + 1]));
    }
  }

  lemma {:induction false} FilesInOrder(at: Path, list: seq<Node>)
    requires ByName(list)
    ensures InOrder(FilesIn(at, list))
  {
    if list != [] {
      var n := list[0];
      ByNameTail(list, n);
      FilesInOrder(at, list[1..]);
      var head := if n.File? then [at + [n.name]] else [];
      forall p, q | p in head && q in FilesIn(at, list[1..]) ensures Earlier(p, q) {
        FilesInExactly(at, list[1..], q);
        var m :| m in list[1..] && m.File? && q == at + [m.name];
        ByNameTail(list, m);
        assert PartAt(p, q, |at|);
      }
      InOrderTogether(head, FilesIn(at, list[1..]));
    }
  }

  lemma {:induction false} WalkDirsInOrder(at: Path, list: seq<Node>)
    requires ByName(list) && forall n :: n in list && n.Dir? ==> WellNamed(n.entries)
    ensures InOrder(WalkDirs(at, list))
    decreases Size(list), 0, |list|
  {
    if list != [] {
      var d := list[0];
      assert Size(list) == NodeSize(d) + Size(list[1..]);
      ByNameTail(list, d);
      assert forall n :: n in list[1..] ==> n in list;
      WalkDirsInOrder(at, list[1..]);
      if d.Dir? {
        WalkInOrder(at + [d.name], d.entries);
        forall p, q | p in Walk(at + [d.name], d.entries) && q in WalkDirs(at, list[1..]) ensures Earlier(p, q) {
          WalkExactly(at + [d.name], d.entries, p);
          OneFurther(at, d.name, p);
          WalkDirsExactly(at, list[1..], q);
          var m :| m in list[1..] && m.Dir? && m.name == q[|at|];
          ByNameTail(list, m);
          assert PartAt(p, q, |at|);
        }
        InOrderTogether(Walk(at + [d.name], d.entries), WalkDirs(at, list[1..]));
      } else {
        assert [] + WalkDirs(at, list[1..]) == WalkDirs(at, list[1..]);
      }
    }
  }

  /** The files of a directory come before what lies in its subdirectories. */
  lemma FilesFirst(at: Path, list: seq<Node>, p: Path, q: Path)
    requires ByName(list) && p in FilesIn(at, list) && q in WalkDirs(at, list)
    ensures Earlier(p, q)
  {
    FilesInExactly(at, list, p);
    WalkDirsExactly(at, list, q);
    var n :| n in list && n.File? && p == at + [n.name];
    var m :| m in list && m.Dir? && m.name == q[|at|];
    var i :| 0 <= i < |list| && list[i] == n;
    var j :| 0 <= j < |list| && list[j] == m;
    assert NameOf(list[if i < j then i else j]) != NameOf(list[if i < j then j else i]);
    assert PartAt(p, q, |at|);
  }

  /** In a tree without double names the walk is in order; so no path comes twice. */
  lemma {:induction false} WalkInOrder(at: Path, entries: seq<Node>)
    requires WellNamed(entries)
    ensures InOrder(Walk(at, entries))
    decreases Size(entries), 1, 0
  {
    var list := Ordered(entries);
    SizeOrdered(entries);
    SameNodes(entries);
    SortSorted(entries, NameOf);
    SortKeepsDistinct(entries, NameOf, NameOf);
    FilesInOrder(at, list);
    WalkDirsInOrder(at, list);
    forall p, q | p in FilesIn(at, list) && q in WalkDirs(at, list) ensures Earlier(p, q) {
      FilesFirst(at, list, p, q);
    }
    InOrderTogether(FilesIn(at, list), WalkDirs(at, list));
  }

  /** What the bounded traversal yields: files of the tree only, in order, each once; and all of them if it ends
      normally. */
  lemma YieldsFilesInOrder(entries: seq<Node>, maxDepth: nat, maxFiles: nat)
    requires WellNamed(entries)
    ensures var out := Expected(Directory(entries), maxDepth, maxFiles);
      && InOrder(out.yielded)
      && (forall p :: p in out.yielded ==> LeadsToFile(entries, p))
      && (out.ending == Exhausted ==> forall p :: LeadsToFile(entries, p) ==> p in out.yielded)
  {
    var out := Expected(Directory(entries), maxDepth, maxFiles);
    TraversalRefinesWalk(entries, maxDepth, maxFiles);
    WalkInOrder([], entries);
    forall p ensures p in Walk([], entries) <==> LeadsToFile(entries, p) {
      WalkExactly([], entries, p);
      assert p[0..] == p;
    }
  }
}
