/** Hashing one opened file while others may write to it (internal/artifact/digest.go). */
module FileDigest {
  import opened Basics
  import opened Decisions
  import opened Kernel
  import opened Selection

  datatype Digested = Digested(sha256: string, size: int64, state: FileState)

  datatype Outcome = Pass | Fail(reason: ScanReason)

  /** `fileChanged`; on Unix the identity is never empty, so its last fallback is not reached. */
  predicate FileChanged(before: FileState, after: FileState) {
    before.size != after.size || before.modified != after.modified || before.token != after.token ||
    before.identity != after.identity
  }

  /** `wouldExceed` in Go's int64; the order of the tests keeps the subtraction in range. */
  predicate WouldExceed(currentFiles: nat, currentBytes: int64, nextBytes: int64, maxFiles: nat, maxBytes: int64)
    requires maxBytes >= 0
  {
    currentFiles + 1 > maxFiles || nextBytes < 0 || currentBytes > maxBytes - nextBytes
  }

  /** Cancelled, late, or neither. */
  method CheckActive(w: World) returns (r: Outcome)
    modifies w
    ensures w.now >= old(w.now) && w.free == old(w.free) && w.faults >= old(w.faults) && w.chunks == old(w.chunks)
    ensures r.Fail? ==> w.faults > old(w.faults) && r.reason in {ScanCancelled, ArtifactScanLimitExceeded}
  {
    w.Elapse();
    if * {
      w.faults := w.faults + 1;
      r := Fail(ScanCancelled);
    } else if * {
      w.faults := w.faults + 1;
      r := Fail(ArtifactScanLimitExceeded);
    } else {
      r := Pass;
    }
  }

  function Concat(pieces: seq<seq<Byte>>): seq<Byte> {
    if pieces == [] then [] else Concat(pieces[..|pieces| - 1]) + pieces[|pieces| - 1]
  }

  /** If nobody touched the file, the input is its beginning, and at the end all of it. */
  ghost predicate SoFar(run: nat -> Disk, handle: Id, first: nat, last: nat, input: seq<Byte>, done: bool) {
    Steady(run, handle, first, last) && first <= last ==>
      input <= run(last)[handle].content && (done ==> input == run(last)[handle].content)
  }

  lemma {:induction false} SteadyParts(run: nat -> Disk, id: Id, first: nat, middle: nat, last: nat)
    requires first <= middle <= last
    ensures Steady(run, id, first, last) ==> Steady(run, id, first, middle) && Steady(run, id, middle, last)
    ensures Steady(run, id, first, middle) && Steady(run, id, middle, last) ==> Steady(run, id, first, last)
  {
    if Steady(run, id, first, last) {
      assert id in run(middle) && run(middle)[id] == run(first)[id];
    }
    if Steady(run, id, first, middle) && Steady(run, id, middle, last) {
      assert id in run(middle) && run(middle)[id] == run(first)[id];
      forall t: nat {:trigger run(t)} | first <= t <= last
        ensures id in run(t) && id in run(first) && run(t)[id] == run(first)[id]
      {
      }
    }
  }

  lemma {:induction false} SoFarOn(run: nat -> Disk, handle: Id, first: nat, before: nat, called: nat, last: nat,
                                   input: seq<Byte>, bytes: seq<Byte>, done: bool)
    requires SoFar(run, handle, first, before, input, false) && first <= before <= called <= last
    requires Steady(run, handle, called, last) && handle in run(last) ==>
               bytes <= run(last)[handle].content[Min(|input|, |run(last)[handle].content|)..] &&
               (done ==> bytes == [] && |input| >= |run(last)[handle].content|)
    ensures SoFar(run, handle, first, last, input + bytes, done)
  {
    SteadyParts(run, handle, first, before, last);
    SteadyParts(run, handle, first, called, last);
  }

  /**
    The read loop: what is hashed is what the reads returned, one piece after the other,
    and on a file nobody touched since `first` that is its content, however it was cut.
   */
  method ReadAll(w: World, handle: Id, maxBytes: int64, ghost first: nat)
    returns (r: Result<seq<Byte>, ScanReason>, ghost hashed: seq<Byte>, ghost pieces: seq<seq<Byte>>)
    requires maxBytes >= 0 && first <= w.now
    modifies w
    ensures w.now >= old(w.now) && w.free == old(w.free) && w.faults >= old(w.faults)
    ensures |hashed| <= maxBytes as int && hashed == Concat(pieces)
    ensures old(w.chunks) + pieces <= w.chunks && (r.Ok? ==> old(w.chunks) + pieces == w.chunks)
    ensures r.Ok? ==> r.value == hashed
    ensures r.Ok? && Steady(w.disks, handle, first, w.now) ==> hashed == w.disks(w.now)[handle].content
    ensures r.Err? && w.faults == old(w.faults) && Steady(w.disks, handle, first, w.now) ==>
              |w.disks(w.now)[handle].content| > maxBytes as int
  {
    hide Steady;
    hashed, pieces := [], [];
    var input: seq<Byte> := [];
    var bytesRead: int64 := 0;
    var done := false;
    while !done
      invariant w.now >= old(w.now) && w.free == old(w.free) && w.faults >= old(w.faults)
      invariant 0 <= bytesRead <= maxBytes && bytesRead as int == |input| && hashed == input
      invariant hashed == Concat(pieces) && old(w.chunks) + pieces == w.chunks
      invariant SoFar(w.disks, handle, first, w.now, input, done)
      decreases !done, maxBytes as int - bytesRead as int
    {
      ghost var before := w.now;
      var active := CheckActive(w);
      if active.Fail? {
        return Err(active.reason), hashed, pieces;
      }
      ghost var called := w.now;
      var piece := w.Read(handle, |input|);
      match piece {
        case Chunk(bytes) =>
          SoFarOn(w.disks, handle, first, before, called, w.now, input, bytes, false);
          if |bytes| > (maxBytes - bytesRead) as int {
            return Err(ArtifactScanLimitExceeded), hashed, pieces;
          }
          bytesRead := bytesRead + |bytes| as int64;
          input := input + bytes;
          hashed, pieces := input, pieces + [bytes];
        case EndOfFile =>
          SoFarOn(w.disks, handle, first, before, called, w.now, input, [], true);
          assert input + [] == input;
          done := true;
        case ReadFailed =>
          SteadyParts(w.disks, handle, first, called, w.now);
          return Err(ArtifactInaccessible), hashed, pieces;
      }
    }
    r := Ok(input);
  }

  /** Why a file that nobody touches is refused. */
  ghost predicate Unfit(disk: Disk, handle: Id, maxBytes: int64, reason: Reason) {
    handle in disk &&
    if disk[handle].kind.Regular? then disk[handle].size > maxBytes && reason == ArtifactScanLimitExceeded
    else reason == ArtifactUnsupportedType
  }

  /**
    Success means: from the first to the last system call the file was one
    regular file that nobody touched, and exactly its bytes were hashed.  No call
    hashes more than `maxBytes`.
   */
  method DigestOpenedFile(w: World, lib: Library, handle: Id, maxBytes: int64)
    returns (r: Result<Digested, ScanReason>, ghost hashed: seq<Byte>)
    requires LawfulDisks(w.disks) && maxBytes >= 0
    modifies w
    ensures w.now >= old(w.now) && w.free == old(w.free) && w.faults >= old(w.faults)
    ensures |hashed| <= maxBytes as int
    ensures r.Ok? ==> DigestOf(w.disks(w.now), lib, handle, hashed, r.value)
    ensures r.Err? ==> w.faults > old(w.faults) || !Steady(w.disks, handle, old(w.now), w.now) ||
                       Unfit(w.disks(w.now), handle, maxBytes, r.error)
  {
    hashed := [];
    var before := w.Stat(handle);
    if before.None? {
      return Err(ArtifactInaccessible), hashed;
    }
    ghost var first := w.now;
    assert WellFormedAt(w.disks, first);
    if !before.value.kind.Regular? {
      return Err(ArtifactUnsupportedType), hashed;
    }
    if before.value.state.size > maxBytes {
      return Err(ArtifactScanLimitExceeded), hashed;
    }
    var input;
    ghost var pieces;
    input, hashed, pieces := ReadAll(w, handle, maxBytes, first);
    if input.Err? {
      return Err(input.error), hashed;
    }
    ghost var read := w.now;
    var after := w.Stat(handle);
    if after.None? {
      return Err(ArtifactInaccessible), hashed;
    }
    if FileChanged(before.value.state, after.value.state) {
      return Err(ArtifactChangedDuringRead), hashed;
    }
    EqualStatesPin(w.disks, before.value.state, first, w.now);
    SteadyParts(w.disks, handle, first, read, w.now);
    assert w.disks(w.now)[handle] == w.disks(read)[handle] == w.disks(first)[handle];
    r := Ok(Digested(lib.sha256(input.value), before.value.state.size, before.value.state));
  }

  /** The digest, size and state belong to the bytes the inode holds. */
  ghost predicate DigestOf(disk: Disk, lib: Library, handle: Id, hashed: seq<Byte>, digest: Digested) {
    && handle in disk && disk[handle].kind.Regular? && hashed == disk[handle].content
    && digest == Digested(lib.sha256(hashed), disk[handle].size, StateOf(handle, disk[handle]))
    && digest.size as int == |hashed|
  }
}
