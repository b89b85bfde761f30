/** A file system in which every I/O call may fail and every write may be stored wrongly.  Temporary files,
    whose names carry a reserved prefix, live apart from ordinary ones until they replace a destination. */
module Files {
  import opened Base
  import Safety

  type Path = Safety.Path
  type Bytes = seq<bv8>
  type Digest = string

  const CHUNK: nat := 1024 * 1024

  /** The ancestors of `p` and `p` itself. */
  function Chain(p: Path): set<Path> {
    set n | 0 <= n <= |p| :: p[..n]
  }

  function Parent(p: Path): Path {
    if p == [] then [] else p[..|p| - 1]
  }

  function Name(p: Path): string {
    if p == [] then "" else p[|p| - 1]
  }

  /** `name` and `parent` take a path apart. */
  lemma ParentAndName(p: Path)
    ensures p != [] ==> Parent(p) + [Name(p)] == p
    ensures p == [] ==> Parent(p) == [] && Name(p) == ""
  {}

  lemma BelowParent(a: Path, b: Path)
    ensures a <= Parent(b) ==> a <= b
  {
    if a <= Parent(b) {
      assert a == Parent(b)[..|a|] == b[..|a|];
    }
  }

  /** No ancestor of `p` (nor `p`) is a regular file, so `p` can be made a directory. */
  ghost predicate CanBeDirectory(files: map<Path, Bytes>, p: Path) {
    forall q :: q in files ==> !(q <= p)
  }

  lemma ChainHasPrefixes(p: Path, q: Path)
    ensures q in Chain(p) <==> q <= p
  {
    if q <= p {
      assert q == p[..|q|];
    }
  }

  function Slice(content: Bytes, offset: nat): Bytes
    requires offset <= |content|
  {
    content[offset..if offset + CHUNK < |content| then offset + CHUNK else |content|]
  }

  /** Read calls it takes to get through `size` bytes, the empty read at the end included. */
  function Reads(size: nat): nat {
    if size == 0 then 1 else 1 + Reads(if size > CHUNK then size - CHUNK else 0)
  }

  /** One of the I/O calls numbered from `first` up to `next` failed. */
  ghost predicate Faulted(fault: nat -> bool, first: nat, next: nat) {
    exists n: nat :: first <= n < next && fault(n)
  }

  /** From call number `first` on every write stores what it is given. */
  ghost predicate Faithful(medium: (nat, Bytes) -> Bytes, first: nat) {
    forall n, b :: n >= first ==> medium(n, b) == b
  }

  class FileSystem {
    var files: map<Path, Bytes>
    var dirs: set<Path>
    var partials: map<nat, Bytes>
    var tick: nat
    /** Whether the n-th I/O call fails, and what the n-th write stores when asked to store some bytes. */
    const fault: nat -> bool
    const medium: (nat, Bytes) -> Bytes
    const sha: Bytes -> Digest
    /** What the error of the n-th call says when it is raised. */
    const describe: nat -> string

    ghost predicate Valid()
      reads this
    {
      && [] in dirs
      && (forall p :: p in files ==> p !in dirs)
      && (forall h :: h in partials ==> h < tick)
    }

    /** From now on no call fails and every write stores what it is given. */
    ghost predicate Sound()
      reads this`tick
    {
      && (forall n: nat :: n >= tick ==> !fault(n))
      && Faithful(medium, tick)
    }

    constructor (files: map<Path, Bytes>, dirs: set<Path>, fault: nat -> bool, medium: (nat, Bytes) -> Bytes,
                 sha: Bytes -> Digest, describe: nat -> string)
      requires [] in dirs && forall p :: p in files ==> p !in dirs
      ensures Valid() && this.files == files && this.dirs == dirs && partials == map[] && tick == 0
      ensures this.fault == fault && this.medium == medium && this.sha == sha && this.describe == describe
    {
      this.files, this.dirs, this.partials, this.tick := files, dirs, map[], 0;
      this.fault, this.medium, this.sha, this.describe := fault, medium, sha, describe;
    }

    /** One I/O call: does it go through? */
    method Try() returns (ok: bool)
      modifies this`tick
      ensures ok == !fault(old(tick)) && tick == old(tick) + 1
    {
      ok := !fault(tick);
      tick := tick + 1;
    }

    method Size(p: Path) returns (r: Result<nat, Error>)
      requires Valid()
      modifies this`tick
      ensures Valid() && tick == old(tick) + 1
      ensures r == if p in files && !fault(old(tick)) then Ok(|files[p]|) else Err(OsError)
    {
      var ok := Try();
      r := if ok && p in files then Ok(|files[p]|) else Err(OsError);
    }

    method ReadChunk(p: Path, offset: nat) returns (r: Result<Bytes, Error>)
      requires Valid() && (p in files ==> offset <= |files[p]|)
      modifies this`tick
      ensures Valid() && tick == old(tick) + 1
      ensures r == if p in files && !fault(old(tick)) then Ok(Slice(files[p], offset)) else Err(OsError)
    {
      var ok := Try();
      r := if ok && p in files then Ok(Slice(files[p], offset)) else Err(OsError);
    }

    /** `sha256_file`: it opens the file and reads it to the end, and fails exactly when one of these calls does. */
    method HashFile(p: Path) returns (r: Result<Digest, Error>)
      requires Valid()
      modifies this`tick
      ensures Valid() && old(tick) < tick
      ensures r == if p in files && !Faulted(fault, old(tick), tick) then Ok(sha(files[p])) else Err(OsError)
      ensures p in files ==>
        && tick <= old(tick) + 1 + Reads(|files[p]|)
        && (r.Ok? ==> tick == old(tick) + 1 + Reads(|files[p]|))
    {
      var handle := Try();
      if !handle || p !in files {
        return Err(OsError);
      }
      var digested: Bytes := [];
      while true
        invariant Valid() && old(tick) < tick && !Faulted(fault, old(tick), tick)
        invariant |digested| <= |files[p]| && digested == files[p][..|digested|]
        invariant tick + Reads(|files[p]| - |digested|) == old(tick) + 1 + Reads(|files[p]|)
        decreases |files[p]| - |digested|
      {
        var chunk := ReadChunk(p, |digested|);
        if chunk.Err? {
          return Err(OsError);
        }
        if chunk.value == [] {
          break;
        }
        digested := digested + chunk.value;
      }
      assert digested == files[p];
      r := Ok(sha(digested));
    }

    /** `mkdir(parents=True, exist_ok=True)`. */
    method MakeDirs(p: Path) returns (r: Result<(), Error>)
      requires Valid()
      modifies this`tick, this`dirs
      ensures Valid() && old(dirs) <= dirs && tick == old(tick) + 1
      ensures r == if !fault(old(tick)) && CanBeDirectory(files, p) then Ok(()) else Err(OsError)
      ensures if r.Ok? then p in dirs else dirs == old(dirs)
      ensures r.Ok? ==> forall d :: d <= p ==> d in dirs
      ensures r.Ok? ==> forall d :: d in dirs ==> d in old(dirs) || d <= p
    {
      forall q ensures q in Chain(p) <==> q <= p { ChainHasPrefixes(p, q); }
      var ok := Try();
      if !ok || exists q :: q in Chain(p) && q in files {
        return Err(OsError);
      }
      dirs := dirs + Chain(p);
      r := Ok(());
    }

    method CreatePartial() returns (r: Result<nat, Error>)
      requires Valid()
      modifies this`tick, this`partials
      ensures Valid() && tick == old(tick) + 1 && (r.Ok? <==> !fault(old(tick)))
      ensures r.Ok? ==> r.value !in old(partials) && partials == old(partials)[r.value := []]
      ensures r.Err? ==> partials == old(partials)
    {
      var h := tick;
      var ok := Try();
      if !ok {
        return Err(OsError);
      }
      partials := partials[h := []];
      r := Ok(h);
    }

    method AppendPartial(h: nat, chunk: Bytes) returns (r: Result<(), Error>)
      requires Valid() && h in partials
      modifies this`tick, this`partials
      ensures Valid() && h in partials && partials == old(partials)[h := partials[h]]
      ensures tick == old(tick) + 1 && (r.Ok? <==> !fault(old(tick)))
      ensures r.Ok? ==> partials[h] == old(partials)[h] + medium(old(tick), chunk)
    {
      var stored := medium(tick, chunk);
      var ok := Try();
      partials := partials[h := partials[h] + stored];
      r := if ok then Ok(()) else Err(OsError);
    }

    method HashPartial(h: nat) returns (r: Result<Digest, Error>)
      requires Valid() && h in partials
      modifies this`tick
      ensures Valid() && old(tick) <= tick
      ensures r == if Faulted(fault, old(tick), tick) then Err(OsError) else Ok(sha(partials[h]))
    {
      var handle := Try();
      if !handle {
        return Err(OsError);
      }
      var digested: Bytes := [];
      while true
        invariant Valid() && old(tick) < tick && !Faulted(fault, old(tick), tick)
        invariant |digested| <= |partials[h]| && digested == partials[h][..|digested|]
        decreases |partials[h]| - |digested|
      {
        var ok := Try();
        if !ok {
          return Err(OsError);
        }
        var chunk := Slice(partials[h], |digested|);
        if chunk == [] {
          break;
        }
        digested := digested + chunk;
      }
      assert digested == partials[h];
      r := Ok(sha(digested));
    }

    /** `os.replace` of a temporary file. */
    method Replace(h: nat, destination: Path) returns (r: Result<(), Error>)
      requires Valid() && h in partials
      modifies this`tick, this`files, this`partials
      ensures Valid() && tick == old(tick) + 1
      ensures r == if !fault(old(tick)) && destination !in dirs then Ok(()) else Err(OsError)
      ensures r.Ok? ==> files == old(files)[destination := old(partials)[h]] && partials == old(partials) - {h}
      ensures r.Err? ==> files == old(files) && partials == old(partials)
    {
      var ok := Try();
      if !ok || destination in dirs {
        return Err(OsError);
      }
      files := files[destination := partials[h]];
      partials := partials - {h};
      r := Ok(());
    }

    method UnlinkPartial(h: nat)
      requires Valid() && h in partials
      modifies this`tick, this`partials
      ensures Valid() && tick == old(tick) + 1
      ensures partials == if fault(old(tick)) then old(partials) else old(partials) - {h}
    {
      var ok := Try();
      if ok {
        partials := partials - {h};
      }
    }

    /** `path.unlink()`. */
    method Unlink(p: Path) returns (r: Result<(), Error>)
      requires Valid()
      modifies this`tick, this`files
      ensures Valid() && tick == old(tick) + 1
      ensures r == if p in old(files) && !fault(old(tick)) then Ok(()) else Err(OsError)
      ensures files == if r.Ok? then old(files) - {p} else old(files)
    {
      var ok := Try();
      if !ok || p !in files {
        return Err(OsError);
      }
      files := files - {p};
      r := Ok(());
    }

    /** `write_text`. */
    method WriteText(p: Path, content: Bytes) returns (r: Result<(), Error>)
      requires Valid()
      modifies this`tick, this`files
      ensures Valid() && tick == old(tick) + 1
      ensures r == if !fault(old(tick)) && p !in dirs then Ok(()) else Err(OsError)
      ensures forall q :: q != p ==> (q in files <==> q in old(files)) && (q in files ==> files[q] == old(files)[q])
      ensures p in old(files) ==> p in files
      ensures r.Ok? ==> p in files && files[p] == medium(old(tick), content)
    {
      var stored := medium(tick, content);
      var ok := Try();
      if p in dirs {
        return Err(OsError);
      }
      files := files[p := stored];
      r := if ok then Ok(()) else Err(OsError);
    }
  }
}
