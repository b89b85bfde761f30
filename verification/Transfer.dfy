/** The verified local copy (teldrive_lab/transfer.py, `LocalCopyBackend.transfer`). */
module Transfer {
  import opened Base
  import opened Files
  import Safety

  datatype Spec = Spec(source: Path, destination: Path, overwrite: bool)

  datatype TransferResult = TransferResult(
    success: bool, bytes: nat, sourceSha: Option<Digest>, destinationSha: Option<Digest>,
    verified: bool, error: Option<string>)

  datatype Outcome = Returned(result: TransferResult) | Raised(error: Error)

  /** What the caller's progress callback does when told how many bytes are through. */
  datatype Reaction = Fine | RaisesOsError | RaisesOther

  /** What the guarded part of `transfer` ends with. */
  datatype Attempt = Replaced(digest: Digest) | Mismatch(digest: Digest) | FailedOs | FailedOther

  predicate Increasing(s: seq<nat>) {
    forall i, j :: 0 <= i < j < |s| ==> s[i] < s[j]
  }

  function OperationOf(spec: Spec): Safety.Operation {
    if spec.overwrite then Safety.Overwrite else Safety.Transfer
  }

  function DecisionOf(boundary: seq<Safety.Path>, spec: Spec, explicit: bool,
                      receipt: Option<Safety.Receipt>): Safety.Decision
  {
    Safety.Authorize(boundary, OperationOf(spec), [spec.source, spec.destination], explicit, receipt)
  }

  /** A copy that may overwrite is authorised as an overwrite, any other as a transfer. */
  lemma AllowedIff(boundary: seq<Safety.Path>, spec: Spec, explicit: bool, receipt: Option<Safety.Receipt>)
    ensures DecisionOf(boundary, spec, explicit, receipt).allowed <==>
      && (forall root :: root in boundary ==> !(root <= spec.source) && !(root <= spec.destination))
      && (if receipt.None? then explicit
          else && receipt.value.approved
               && receipt.value.operation == (if spec.overwrite then Safety.Overwrite else Safety.Transfer)
               && multiset(receipt.value.paths)
                  == multiset{Safety.Text(spec.source), Safety.Text(spec.destination)}
               && Sorted(receipt.value.paths, Self))
  {
    var paths := [spec.source, spec.destination];
    Safety.MutationAllowedIff(boundary, OperationOf(spec), paths, explicit, receipt);
    assert Safety.Texts(paths) == [Safety.Text(spec.source), Safety.Text(spec.destination)];
    assert forall root :: root in boundary ==> (root <= spec.source <==> root <= paths[0]);
    assert spec.source in paths && spec.destination in paths;
  }

  /** Nothing was copied, and the message says why. */
  lemma FailureTells(error: string)
    ensures var r := Failure(error);
      && r.Returned? && !r.result.success && !r.result.verified && r.result.bytes == 0 && r.result.error == Some(error)
  {}

  function Failure(error: string): Outcome {
    Returned(TransferResult(false, 0, None, None, false, Some(error)))
  }

  /** How far a copy of `size` bytes has got when it reports for the `k`-th time, counted from zero. */
  function Chunked(k: nat, size: nat): nat {
    if (k + 1) * 1_048_576 < size then (k + 1) * 1_048_576 else size
  }

  /** The progress reports of a copy of `size` bytes that got `copied` bytes through. */
  predicate ReportsOf(progress: seq<nat>, reporting: bool, copied: nat, size: nat) {
    && Increasing(progress) && copied <= size
    && (forall k :: 0 <= k < |progress| ==> 0 < progress[k] <= copied)
    && (forall k :: 0 <= k < |progress| ==> progress[k] == Chunked(k, size))
    && (reporting && copied < size ==> copied == |progress| * 1_048_576)
    && (reporting && copied > 0 ==> progress != [] && progress[|progress| - 1] == copied)
    && (!reporting ==> progress == [])
  }

  /** The last report made the callback react so. */
  predicate Blamed(callback: Option<nat -> Reaction>, progress: seq<nat>, reaction: Reaction) {
    callback.Some? && progress != [] && callback.value(progress[|progress| - 1]) == reaction
  }

  /** No report so far has made the callback raise. */
  predicate AllWell(callback: Option<nat -> Reaction>, progress: seq<nat>) {
    callback.Some? && progress != [] ==> callback.value(progress[|progress| - 1]) == Fine
  }

  /** What the callback does first, other than returning, when told of every chunk from `copied` on. */
  function FirstReaction(callback: Option<nat -> Reaction>, copied: nat, size: nat): Reaction
    decreases size - copied
  {
    if callback.None? || copied >= size then Fine
    else
      var next := ChunkEnd(copied, size);
      if callback.value(next) != Fine then callback.value(next) else FirstReaction(callback, next, size)
  }

  function FailureOf(reaction: Reaction): Option<Attempt> {
    match reaction
    case Fine => None
    case RaisesOsError => Some(FailedOs)
    case RaisesOther => Some(FailedOther)
  }

  /** No other temporary file has changed. */
  ghost predicate Only(before: map<nat, Bytes>, after: map<nat, Bytes>, h: nat) {
    h in after && after == before[h := after[h]]
  }

  lemma OnlyTwice(a: map<nat, Bytes>, b: map<nat, Bytes>, c: map<nat, Bytes>, h: nat)
    requires Only(a, b, h) && Only(b, c, h)
    ensures Only(a, c, h)
  {}

  /** Read the next chunk and write it to the temporary file; a size of zero is the end of the source. */
  method MoveChunk(fs: FileSystem, h: nat, source: Path, copied: nat) returns (r: Result<nat, Error>)
    requires fs.Valid() && h in fs.partials && source in fs.files && copied <= |fs.files[source]|
    modifies fs`tick, fs`partials
    ensures fs.Valid() && old(fs.tick) < fs.tick && Only(old(fs.partials), fs.partials, h)
    ensures r.Ok? <==> !Faulted(fs.fault, old(fs.tick), fs.tick)
    ensures r.Ok? ==> r.value == |Slice(fs.files[source], copied)|
    ensures r.Ok? && old(Faithful(fs.medium, fs.tick)) && old(fs.partials)[h] == fs.files[source][..copied]
            ==> fs.partials[h] == fs.files[source][..copied + r.value]
  {
    var chunk := fs.ReadChunk(source, copied);
    if chunk.Err? {
      return Err(chunk.error);
    }
    if chunk.value == [] {
      return Ok(0);
    }
    var written := fs.AppendPartial(h, chunk.value);
    if written.Err? {
      return Err(written.error);
    }
    assert fs.files[source][..copied] + chunk.value == fs.files[source][..copied + |chunk.value|];
    r := Ok(|chunk.value|);
  }

  /** How a guarded part ends: it fails with an OSError, with another exception exactly when the callback has
      just raised one, and without I/O faults exactly as the callback first reacts. */
  ghost predicate EndsAs(failed: Option<Attempt>, callback: Option<nat -> Reaction>, progress: seq<nat>, size: nat,
                         faulted: bool)
  {
    && (failed.Some? ==> failed.value.FailedOs? || failed.value.FailedOther?)
    && (failed == Some(FailedOther) <==> Blamed(callback, progress, RaisesOther))
    && (!faulted ==> failed == FailureOf(FirstReaction(callback, 0, size)))
  }

  /** `copied` bytes are through, and no report has made the callback raise. */
  ghost predicate Midway(callback: Option<nat -> Reaction>, progress: seq<nat>, copied: nat, size: nat) {
    && ReportsOf(progress, callback.Some?, copied, size) && AllWell(callback, progress)
    && FirstReaction(callback, copied, size) == FirstReaction(callback, 0, size)
  }

  /** Where the next chunk ends. */
  function ChunkEnd(copied: nat, size: nat): nat { if copied + CHUNK < size then copied + CHUNK else size }

  /** Count a chunk and tell the callback, which may raise. */
  method Report(callback: Option<nat -> Reaction>, progress: seq<nat>, copied: nat, next: nat, ghost size: nat)
    returns (failed: Option<Attempt>, reported: seq<nat>)
    requires Midway(callback, progress, copied, size) && copied < size && next == ChunkEnd(copied, size)
    ensures ReportsOf(reported, callback.Some?, next, size)
    ensures failed == if callback.None? then None else FailureOf(callback.value(next))
    ensures failed.None? ==> Midway(callback, reported, next, size)
    ensures failed.Some? ==> EndsAs(failed, callback, reported, size, false)
  {
    failed, reported := None, progress;
    if callback.Some? {
      reported := progress + [next];
      var reaction := callback.value(next);
      if reaction != Fine {
        failed := Some(if reaction == RaisesOsError then FailedOs else FailedOther);
      }
    }
  }

  /** One round of the chunk loop: read, write to the temporary file, count, report.  Where nothing is left to read,
      nothing more is through. */
  method CopyChunk(fs: FileSystem, h: nat, source: Path, callback: Option<nat -> Reaction>, copied: nat,
                   progress: seq<nat>)
    returns (failed: Option<Attempt>, next: nat, reported: seq<nat>)
    requires fs.Valid() && h in fs.partials && source in fs.files
    requires Midway(callback, progress, copied, |fs.files[source]|)
    modifies fs`tick, fs`partials
    ensures fs.Valid() && old(fs.tick) < fs.tick && Only(old(fs.partials), fs.partials, h)
    ensures ReportsOf(reported, callback.Some?, next, |fs.files[source]|)
    ensures failed.None? ==>
      && !Faulted(fs.fault, old(fs.tick), fs.tick) && Midway(callback, reported, next, |fs.files[source]|)
      && copied <= next && (next == copied ==> copied == |fs.files[source]|)
    ensures failed.Some? ==>
              EndsAs(failed, callback, reported, |fs.files[source]|, Faulted(fs.fault, old(fs.tick), fs.tick))
    ensures failed.None? && old(Faithful(fs.medium, fs.tick)) && old(fs.partials)[h] == fs.files[source][..copied]
            ==> fs.partials[h] == fs.files[source][..next]
  {
    failed, next, reported := None, copied, progress;
    var moved := MoveChunk(fs, h, source, copied);
    if moved.Err? {
      failed := Some(FailedOs);
      return;
    }
    if moved.value != 0 {
      next := copied + moved.value;
      failed, reported := Report(callback, progress, copied, next, |fs.files[source]|);
    }
  }

  lemma FaultedLater(fault: nat -> bool, first: nat, middle: nat, next: nat)
    requires first <= middle <= next
    ensures Faulted(fault, first, next) <==> Faulted(fault, first, middle) || Faulted(fault, middle, next)
  {
    if n: nat :| first <= n < next && fault(n) {
      assert n < middle || middle <= n;
    }
  }

  /** The chunk loop. */
  method CopyChunks(fs: FileSystem, h: nat, source: Path, callback: Option<nat -> Reaction>)
    returns (failed: Option<Attempt>, copied: nat, progress: seq<nat>)
    requires fs.Valid() && h in fs.partials && fs.partials[h] == [] && source in fs.files
    modifies fs`tick, fs`partials
    ensures fs.Valid() && old(fs.tick) <= fs.tick && Only(old(fs.partials), fs.partials, h)
    ensures ReportsOf(progress, callback.Some?, copied, |fs.files[source]|)
    ensures failed.None? ==> copied == |fs.files[source]|
    ensures failed.None? && old(Faithful(fs.medium, fs.tick)) ==> fs.partials[h] == fs.files[source]
    ensures EndsAs(failed, callback, progress, |fs.files[source]|, Faulted(fs.fault, old(fs.tick), fs.tick))
  {
    copied, progress, failed := 0, [], None;
    var handle := fs.Try();
    if !handle {
      return Some(FailedOs), copied, progress;
    }
    ghost var size := |fs.files[source]|;
    while true
      invariant fs.Valid() && old(fs.tick) <= fs.tick && Only(old(fs.partials), fs.partials, h)
      invariant failed.None? && Midway(callback, progress, copied, size)
      invariant !Faulted(fs.fault, old(fs.tick), fs.tick)
      invariant old(Faithful(fs.medium, fs.tick)) ==> fs.partials[h] == fs.files[source][..copied]
      decreases size - copied
    {
      ghost var before, tick := fs.partials, fs.tick;
      var next;
      failed, next, progress := CopyChunk(fs, h, source, callback, copied, progress);
      OnlyTwice(old(fs.partials), before, fs.partials, h);
      FaultedLater(fs.fault, old(fs.tick), tick, fs.tick);
      if failed.Some? {
        copied := next;
        return;
      }
      if next == copied {
        break;
      }
      copied := next;
    }
    assert fs.files[source][..copied] == fs.files[source];
  }

  /** Copy, flush, fsync and hash the temporary file. */
  method Fill(fs: FileSystem, h: nat, source: Path, callback: Option<nat -> Reaction>)
    returns (failed: Option<Attempt>, digest: Digest, copied: nat, progress: seq<nat>)
    requires fs.Valid() && h in fs.partials && fs.partials[h] == [] && source in fs.files
    modifies fs`tick, fs`partials
    ensures fs.Valid() && old(fs.tick) <= fs.tick && Only(old(fs.partials), fs.partials, h)
    ensures ReportsOf(progress, callback.Some?, copied, |fs.files[source]|)
    ensures failed.None? ==> copied == |fs.files[source]| && digest == fs.sha(fs.partials[h])
    ensures failed.None? && old(Faithful(fs.medium, fs.tick)) ==> fs.partials[h] == fs.files[source]
    ensures EndsAs(failed, callback, progress, |fs.files[source]|, Faulted(fs.fault, old(fs.tick), fs.tick))
  {
    digest := "";
    failed, copied, progress := CopyChunks(fs, h, source, callback);
    if failed.Some? {
      return;
    }
    var flushed := fs.Try();
    if !flushed {
      failed := Some(FailedOs);
      return;
    }
    var synced := fs.Try();
    if !synced {
      failed := Some(FailedOs);
      return;
    }
    var hashed := fs.HashPartial(h);
    if hashed.Err? {
      failed := Some(FailedOs);
      return;
    }
    digest := hashed.value;
  }

  /** Compare digests, copy the attributes, replace the destination. */
  method Publish(fs: FileSystem, h: nat, destination: Path, sourceHash: Digest, digest: Digest) returns (a: Attempt)
    requires fs.Valid() && h in fs.partials && digest == fs.sha(fs.partials[h])
    modifies fs`tick, fs`files, fs`partials
    ensures fs.Valid() && old(fs.tick) <= fs.tick
    ensures a.Replaced? ==> a.digest == digest == sourceHash
                            && fs.files == old(fs.files)[destination := old(fs.partials)[h]]
                            && fs.partials == old(fs.partials) - {h}
    ensures !a.Replaced? ==> fs.files == old(fs.files) && fs.partials == old(fs.partials)
    ensures a.Mismatch? <==> digest != sourceHash
    ensures a.Mismatch? ==> a.digest == digest
    ensures a.Replaced? <==> digest == sourceHash && destination !in fs.dirs
                             && !Faulted(fs.fault, old(fs.tick), fs.tick)
    ensures !a.FailedOther?
  {
    if sourceHash != digest {
      return Mismatch(digest);
    }
    var stamped := fs.Try();
    if !stamped {
      return FailedOs;
    }
    var replaced := fs.Replace(h, destination);
    a := if replaced.Ok? then Replaced(digest) else FailedOs;
  }

  /** The effect on ordinary files of an attempt. */
  ghost predicate Attempted(sha: Bytes -> Digest, faithful: bool, spec: Spec, before: map<Path, Bytes>,
                            after: map<Path, Bytes>, a: Attempt)
    requires spec.source in before
  {
    if a.Replaced? then
      && a.digest == sha(before[spec.source])
      && spec.destination in after && after == before[spec.destination := after[spec.destination]]
      && sha(after[spec.destination]) == a.digest
      && (faithful ==> after[spec.destination] == before[spec.source])
    else after == before
  }

  /** How an unobstructed attempt without I/O faults ends. */
  predicate Concludes(a: Attempt, reaction: Reaction) {
    match reaction
    case Fine => a.Replaced?
    case RaisesOsError => a == FailedOs
    case RaisesOther => a == FailedOther
  }

  /** The body of the `try`: everything from making the directory to the atomic replace. */
  method Try(fs: FileSystem, spec: Spec, sourceHash: Digest, callback: Option<nat -> Reaction>)
    returns (a: Attempt, temp: Option<nat>, copied: nat, progress: seq<nat>)
    requires fs.Valid() && spec.source in fs.files && sourceHash == fs.sha(fs.files[spec.source])
    modifies fs
    ensures fs.Valid() && old(fs.dirs) <= fs.dirs && old(fs.tick) <= fs.tick
    ensures forall d :: d in fs.dirs ==> d in old(fs.dirs) || d <= Parent(spec.destination)
    ensures ReportsOf(progress, callback.Some?, copied, |old(fs.files)[spec.source]|)
    ensures a.Replaced? ==> temp.None? && copied == |old(fs.files)[spec.source]|
    ensures if temp.None? then fs.partials == old(fs.partials) else Leftover(old(fs.partials), fs.partials, temp.value)
    ensures Attempted(fs.sha, old(Faithful(fs.medium, fs.tick)), spec, old(fs.files), fs.files, a)
    ensures a == FailedOther <==> Blamed(callback, progress, RaisesOther)
    ensures a.Mismatch? ==> a.digest != sourceHash
    ensures old(fs.Sound()) && CanBeDirectory(old(fs.files), Parent(spec.destination))
            && spec.destination !in old(fs.dirs)
            ==> Concludes(a, FirstReaction(callback, 0, |old(fs.files)[spec.source]|))
  {
    temp, copied, progress := None, 0, [];
    var made := fs.MakeDirs(Parent(spec.destination));
    if made.Err? {
      a := FailedOs;
      return;
    }
    assert spec.destination in fs.dirs ==> spec.destination in old(fs.dirs) || spec.destination == [];
    var created := fs.CreatePartial();
    if created.Err? {
      a := FailedOs;
      return;
    }
    var h := created.value;
    temp := Some(h);
    var failed: Option<Attempt>, digest: Digest;
    failed, digest, copied, progress := Fill(fs, h, spec.source, callback);
    if failed.Some? {
      a := failed.value;
      return;
    }
    a := Publish(fs, h, spec.destination, sourceHash, digest);
    if a.Replaced? {
      temp := None;
    }
  }

  /** One temporary file more than before. */
  predicate Leftover(before: map<nat, Bytes>, after: map<nat, Bytes>, h: nat) {
    h !in before && h in after && after - {h} == before
  }

  /** A result is all or nothing. */
  ghost predicate AllOrNothing(sha: Bytes -> Digest, spec: Spec, before: map<Path, Bytes>, after: map<Path, Bytes>,
                               r: Outcome)
  {
    if r.Returned? && r.result.success
    then
      && spec.source in before && spec.destination in after
      && (!spec.overwrite ==> spec.destination !in before)
      && after == before[spec.destination := after[spec.destination]]
      && sha(after[spec.destination]) == sha(before[spec.source])
      && r.result == TransferResult(true, |before[spec.source]|, Some(sha(before[spec.source])),
                                    Some(sha(before[spec.source])), true, None)
    else after == before && (r.Returned? ==> !r.result.verified)
  }

  /** Nothing stands in the way of the copy. */
  ghost predicate Unobstructed(spec: Spec, files: map<Path, Bytes>, dirs: set<Path>) {
    && spec.source in files && spec.destination !in dirs
    && (!spec.overwrite ==> spec.destination !in files)
    && CanBeDirectory(files, Parent(spec.destination))
  }

  /** How an unobstructed copy without I/O faults comes back. */
  ghost predicate Returns(r: Outcome, reaction: Reaction) {
    match reaction
    case Fine => r.Returned? && r.result.success
    case RaisesOsError => r.Returned? && !r.result.success
    case RaisesOther => r == Raised(OtherError)
  }

  /** What a failed copy says: that the digests differ, when they do, and otherwise what the I/O error said. */
  predicate SaysWhy(r: Outcome) {
    r.Returned? && !r.result.success ==>
      && r.result.error.Some?
      && if r.result.destinationSha.Some?
         then r.result.error.value == "post-transfer checksum mismatch" && r.result.destinationSha != r.result.sourceSha
         else "transfer I/O error: " <= r.result.error.value
  }

  /** The outcome of an attempt, once the `finally` clause has removed what it left behind. */
  method Bracket(fs: FileSystem, spec: Spec, sourceHash: Digest, callback: Option<nat -> Reaction>)
    returns (r: Outcome, progress: seq<nat>)
    requires fs.Valid() && spec.source in fs.files && sourceHash == fs.sha(fs.files[spec.source])
    requires !spec.overwrite ==> spec.destination !in fs.files
    modifies fs
    ensures fs.Valid() && old(fs.dirs) <= fs.dirs && old(fs.tick) <= fs.tick
    ensures forall d :: d in fs.dirs ==> d in old(fs.dirs) || d <= Parent(spec.destination)
    ensures AllOrNothing(fs.sha, spec, old(fs.files), fs.files, r)
    ensures Clean(fs.fault, old(fs.partials), fs.partials, fs.tick, r)
    ensures Reported(progress, callback, spec, old(fs.files), r)
    ensures old(Faithful(fs.medium, fs.tick)) && r.Returned? && r.result.success
            ==> fs.files[spec.destination] == old(fs.files)[spec.source]
    ensures r.Raised? ==> r.error == OtherError
    ensures r.Raised? <==> Blamed(callback, progress, RaisesOther)
    ensures SaysWhy(r)
    ensures old(fs.Sound()) && Unobstructed(spec, old(fs.files), old(fs.dirs))
            ==> Returns(r, FirstReaction(callback, 0, |old(fs.files)[spec.source]|))
  {
    var a: Attempt, temp: Option<nat>, copied: nat;
    a, temp, copied, progress := Try(fs, spec, sourceHash, callback);
    match a {
      case Replaced(digest) =>
        r := Returned(TransferResult(true, copied, Some(sourceHash), Some(digest), true, None));
      case Mismatch(digest) =>
        r := Returned(TransferResult(false, copied, Some(sourceHash), Some(digest), false,
                                     Some("post-transfer checksum mismatch")));
      case FailedOs =>
        r := Returned(TransferResult(false, copied, Some(sourceHash), None, false,
                                     Some("transfer I/O error: " + fs.describe(fs.tick))));
      case FailedOther =>
        r := Raised(OtherError);
    }
    if temp.Some? {
      fs.UnlinkPartial(temp.value);
    }
  }

  /** No partial file is left, unless the final unlink of an unsuccessful copy failed; then it is one. */
  ghost predicate Clean(fault: nat -> bool, before: map<nat, Bytes>, after: map<nat, Bytes>, tick: nat, r: Outcome) {
    after != before ==>
      && !(r.Returned? && r.result.success)
      && tick > 0 && fault(tick - 1)
      && exists h :: Leftover(before, after, h)
  }

  /** Progress strictly increases and, on success, ends at the size of the source. */
  ghost predicate Reported(progress: seq<nat>, callback: Option<nat -> Reaction>, spec: Spec, before: map<Path, Bytes>,
                           r: Outcome)
  {
    && Increasing(progress)
    && (spec.source in before ==>
          forall k :: 0 <= k < |progress| ==> progress[k] == Chunked(k, |before[spec.source]|))
    && (r.Returned? && r.result.success && callback.Some? && spec.source in before && before[spec.source] != [] ==>
          progress != [] && progress[|progress| - 1] == |before[spec.source]|)
  }

  /** The transfer gets as far as looking at the source: it is allowed, there is a source, and its place is free. */
  ghost predicate Admitted(boundary: seq<Safety.Path>, spec: Spec, explicit: bool, receipt: Option<Safety.Receipt>,
                           files: map<Path, Bytes>, dirs: set<Path>)
  {
    && DecisionOf(boundary, spec, explicit, receipt).allowed && spec.source in files
    && (spec.overwrite || (spec.destination !in files && spec.destination !in dirs))
  }

  /** An admitted transfer.  The size and the first digest are taken outside the `try`: an OSError there is
      not caught. */
  method LookAndCopy(fs: FileSystem, spec: Spec, callback: Option<nat -> Reaction>)
    returns (r: Outcome, progress: seq<nat>)
    requires fs.Valid() && spec.source in fs.files
    requires spec.overwrite || (spec.destination !in fs.files && spec.destination !in fs.dirs)
    modifies fs
    ensures fs.Valid() && old(fs.dirs) <= fs.dirs && old(fs.tick) <= fs.tick
    ensures forall d :: d in fs.dirs ==> d in old(fs.dirs) || d <= Parent(spec.destination)
    ensures AllOrNothing(fs.sha, spec, old(fs.files), fs.files, r)
    ensures Clean(fs.fault, old(fs.partials), fs.partials, fs.tick, r)
    ensures Reported(progress, callback, spec, old(fs.files), r)
    ensures SaysWhy(r)
    ensures r == Raised(OsError)
       <==> Faulted(fs.fault, old(fs.tick), old(fs.tick) + 2 + Reads(|old(fs.files)[spec.source]|))
    ensures r == Raised(OtherError) <==> Blamed(callback, progress, RaisesOther)
    ensures r.Raised? ==> r.error == OsError || r.error == OtherError
    ensures old(Faithful(fs.medium, fs.tick)) && r.Returned? && r.result.success
            ==> fs.files[spec.destination] == old(fs.files)[spec.source]
    ensures old(fs.Sound()) && Unobstructed(spec, old(fs.files), old(fs.dirs))
            ==> Returns(r, FirstReaction(callback, 0, |old(fs.files)[spec.source]|))
  {
    progress := [];
    var total := fs.Size(spec.source);
    if total.Err? {
      return Raised(OsError), progress;
    }
    var sourceHash := fs.HashFile(spec.source);
    if sourceHash.Err? {
      return Raised(OsError), progress;
    }
    r, progress := Bracket(fs, spec, sourceHash.value, callback);
  }

  /** An OSError escapes exactly when one of the calls that take the size and the first digest fails; another
      exception escapes exactly when the callback raises one. */
  method Copy(fs: FileSystem, boundary: seq<Safety.Path>, spec: Spec, explicit: bool, receipt: Option<Safety.Receipt>,
              callback: Option<nat -> Reaction>)
    returns (r: Outcome, progress: seq<nat>)
    requires fs.Valid()
    modifies fs
    ensures fs.Valid() && old(fs.dirs) <= fs.dirs && old(fs.tick) <= fs.tick
    ensures forall d :: d in fs.dirs ==> d in old(fs.dirs) || d <= Parent(spec.destination)
    ensures AllOrNothing(fs.sha, spec, old(fs.files), fs.files, r)
    ensures Clean(fs.fault, old(fs.partials), fs.partials, fs.tick, r)
    ensures Reported(progress, callback, spec, old(fs.files), r)
    ensures !DecisionOf(boundary, spec, explicit, receipt).allowed ==>
              r == Failure(DecisionOf(boundary, spec, explicit, receipt).reason)
              && fs.tick == old(fs.tick) && fs.dirs == old(fs.dirs) && fs.partials == old(fs.partials)
    ensures DecisionOf(boundary, spec, explicit, receipt).allowed
            && !Admitted(boundary, spec, explicit, receipt, old(fs.files), old(fs.dirs)) ==>
              r == Failure(if spec.source in old(fs.files) then "destination exists"
                           else "source is not a regular file")
    ensures Admitted(boundary, spec, explicit, receipt, old(fs.files), old(fs.dirs)) ==> SaysWhy(r)
    ensures r == Raised(OsError)
       <==> && Admitted(boundary, spec, explicit, receipt, old(fs.files), old(fs.dirs))
            && Faulted(fs.fault, old(fs.tick), old(fs.tick) + 2 + Reads(|old(fs.files)[spec.source]|))
    ensures r == Raised(OtherError) <==> Blamed(callback, progress, RaisesOther)
    ensures r.Raised? ==> r.error == OsError || r.error == OtherError
    ensures old(Faithful(fs.medium, fs.tick)) && r.Returned? && r.result.success
            ==> fs.files[spec.destination] == old(fs.files)[spec.source]
    ensures old(fs.Sound()) && DecisionOf(boundary, spec, explicit, receipt).allowed
            && Unobstructed(spec, old(fs.files), old(fs.dirs))
            ==> Returns(r, FirstReaction(callback, 0, |old(fs.files)[spec.source]|))
  {
    progress := [];
    var decision := DecisionOf(boundary, spec, explicit, receipt);
    if !decision.allowed {
      return Failure(decision.reason), progress;
    }
    if spec.source !in fs.files {
      return Failure("source is not a regular file"), progress;
    }
    if (spec.destination in fs.files || spec.destination in fs.dirs) && !spec.overwrite {
      return Failure("destination exists"), progress;
    }
    r, progress := LookAndCopy(fs, spec, callback);
  }

  lemma NoCallback(progress: seq<nat>, size: nat)
    ensures FirstReaction(None, 0, size) == Fine && !Blamed(None, progress, RaisesOther)
  {}

  /** The copy without a progress callback. */
  method CopyQuietly(fs: FileSystem, boundary: seq<Safety.Path>, spec: Spec, receipt: Option<Safety.Receipt>)
    returns (r: Outcome)
    requires fs.Valid()
    modifies fs
    ensures fs.Valid() && old(fs.dirs) <= fs.dirs && old(fs.tick) <= fs.tick
    ensures forall d :: d in fs.dirs ==> d in old(fs.dirs) || d <= Parent(spec.destination)
    ensures AllOrNothing(fs.sha, spec, old(fs.files), fs.files, r)
    ensures old(Faithful(fs.medium, fs.tick)) && r.Returned? && r.result.success
            ==> fs.files[spec.destination] == old(fs.files)[spec.source]
    ensures r.Raised?
       <==> && Admitted(boundary, spec, false, receipt, old(fs.files), old(fs.dirs))
            && Faulted(fs.fault, old(fs.tick), old(fs.tick) + 2 + Reads(|old(fs.files)[spec.source]|))
    ensures r.Raised? ==> r.error == OsError
    ensures old(fs.Sound()) && DecisionOf(boundary, spec, false, receipt).allowed
            && Unobstructed(spec, old(fs.files), old(fs.dirs))
            ==> r.Returned? && r.result.success
    ensures !DecisionOf(boundary, spec, false, receipt).allowed ==> !(r.Returned? && r.result.success)
  {
    ghost var size := if spec.source in fs.files then |fs.files[spec.source]| else 0;
    var progress;
    r, progress := Copy(fs, boundary, spec, false, receipt, None);
    NoCallback(progress, size);
  }

  /** `TransferManager.transfer` without a limiter: it looks at the size of the source first, which may raise. */
  method Managed(fs: FileSystem, boundary: seq<Safety.Path>, spec: Spec, receipt: Option<Safety.Receipt>)
    returns (r: Outcome)
    requires fs.Valid()
    modifies fs
    ensures fs.Valid() && old(fs.dirs) <= fs.dirs && old(fs.tick) <= fs.tick
    ensures forall d :: d in fs.dirs ==> d in old(fs.dirs) || d <= Parent(spec.destination)
    ensures AllOrNothing(fs.sha, spec, old(fs.files), fs.files, r)
    ensures old(Faithful(fs.medium, fs.tick)) && r.Returned? && r.result.success
            ==> fs.files[spec.destination] == old(fs.files)[spec.source]
    ensures r.Raised?
       <==> && spec.source in old(fs.files)
            && (|| fs.fault(old(fs.tick))
                || (&& Admitted(boundary, spec, false, receipt, old(fs.files), old(fs.dirs))
                    && Faulted(fs.fault, old(fs.tick) + 1, old(fs.tick) + 1 + 2 + Reads(|old(fs.files)[spec.source]|))))
    ensures r.Raised? ==> r.error == OsError
    ensures old(fs.Sound()) && DecisionOf(boundary, spec, false, receipt).allowed
            && Unobstructed(spec, old(fs.files), old(fs.dirs))
            ==> r.Returned? && r.result.success
    ensures !DecisionOf(boundary, spec, false, receipt).allowed ==> !(r.Returned? && r.result.success)
  {
    if spec.source in fs.files {
      var size := fs.Size(spec.source);
      if size.Err? {
        return Raised(size.error);
      }
      assert fs.tick == old(fs.tick) + 1 && !fs.fault(old(fs.tick));
    }
    r := CopyQuietly(fs, boundary, spec, receipt);
  }

  /** However badly the medium behaved, a copy reported as a success holds the very bytes of its source, unless
      the two are different byte strings with one digest; nothing else has changed. */
  lemma DigestsCatchCorruption(sha: Bytes -> Digest, spec: Spec, before: map<Path, Bytes>, after: map<Path, Bytes>,
                               r: Outcome)
    requires AllOrNothing(sha, spec, before, after, r) && r.Returned? && r.result.success
    ensures after == before[spec.destination := before[spec.source]]
         || (after[spec.destination] != before[spec.source] && sha(after[spec.destination]) == sha(before[spec.source]))
    ensures forall p :: p in before && (spec.overwrite ==> p != spec.destination) ==>
              p in after && after[p] == before[p]
  {}

  // ---------- one copy beside another ----------

  /** Neither path is the other or lies below it. */
  predicate Apart(a: Path, b: Path) { !(a <= b) && !(b <= a) }

  /** A copy to one place leaves a copy to another unobstructed. */
  lemma StillUnobstructed(spec: Spec, done: Path, files: map<Path, Bytes>, dirs: set<Path>,
                          files': map<Path, Bytes>, dirs': set<Path>)
    requires Unobstructed(spec, files, dirs) && Apart(done, spec.destination)
    requires done in files' && files' == files[done := files'[done]]
    requires forall d :: d in dirs' ==> d in dirs || d <= Parent(done)
    ensures Unobstructed(spec, files', dirs')
  {
    BelowParent(spec.destination, done);
    BelowParent(done, spec.destination);
  }
}
