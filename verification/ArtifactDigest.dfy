/** `Digest` of internal/artifact/digest.go and the root opening of digest_secure_unix.go. */
module ArtifactDigest {
  import opened ArtifactIdentity
  import opened Basics
  import opened Canonical
  import opened Decisions
  import opened FileDigest
  import opened Kernel
  import opened Selection
  import opened TreeAcceptance
  import opened TreeDigest
  import opened TreeSpec
  import opened TreeWalk
  import opened WalkPromise
  import Utf8

  /** One component of the root path; all but the last must be directories. */
  ghost function Component(disk: Disk, path: Path, i: nat, parent: Id): Opened
    requires i < |path|
  {
    if i < |path| - 1 then LookupDirectory(disk, parent, path[i]) else Lookup(disk, parent, path[i])
  }

  /** The first i components led to `id`, each looked up at an instant of its own, in order. */
  ghost predicate Reached(run: nat -> Disk, slash: Id, path: Path, i: nat, id: Id, first: nat, last: nat)
    requires i <= |path|
    decreases i, 1
  {
    if i == 0 then id == slash && first <= last
    else exists parent, t: nat :: first <= t <= last && ReachedBy(run, slash, path, i, id, first, t, parent)
  }

  ghost predicate ReachedBy(run: nat -> Disk, slash: Id, path: Path, i: nat, id: Id, first: nat, t: nat, parent: Id)
    requires 0 < i <= |path|
    decreases i, 0
  {
    Component(run(t), path, i - 1, parent) == Handle(id) && Reached(run, slash, path, i - 1, parent, first, t)
  }

  lemma ReachedLater(run: nat -> Disk, slash: Id, path: Path, i: nat, id: Id, first: nat, t: nat, last: nat)
    requires i <= |path| && Reached(run, slash, path, i, id, first, t) && t <= last
    ensures Reached(run, slash, path, i, id, first, last)
  {
  }

  /** The same on a disk that stands still. */
  ghost function FindRoot(disk: Disk, slash: Id, path: Path, i: nat): Opened
    requires i <= |path|
  {
    if i == 0 then Handle(slash)
    else
      match FindRoot(disk, slash, path, i - 1)
      case Handle(parent) => Component(disk, path, i - 1, parent)
      case other => other
  }

  lemma {:induction false} FailedEarly(disk: Disk, slash: Id, path: Path, i: nat)
    requires i <= |path| && !FindRoot(disk, slash, path, i).Handle?
    ensures FindRoot(disk, slash, path, |path|) == FindRoot(disk, slash, path, i)
    decreases |path| - i
  {
    if i < |path| {
      FailedEarly(disk, slash, path, i + 1);
    }
  }

  method OpenComponent(w: World, path: Path, i: nat, parent: Id) returns (r: Opened)
    requires i < |path|
    modifies w
    ensures w.now >= old(w.now) && w.faults >= old(w.faults)
    ensures w.free == if r.Handle? then old(w.free) - 1 else old(w.free)
    ensures r.Handle? ==> Component(w.disks(w.now), path, i, parent) == r
    ensures r != Component(w.disks(w.now), path, i, parent) ==> w.faults > old(w.faults)
  {
    if i < |path| - 1 {
      r := w.OpenDirectory(parent, path[i]);
    } else {
      r := w.OpenChild(parent, path[i]);
    }
  }

  /** `openArtifactRoot` on a cleaned absolute path: one handle after the other, starting at "/". */
  method OpenArtifactRoot(w: World, slash: Id, path: Path) returns (r: Opened)
    modifies w
    ensures w.now >= old(w.now) && w.faults >= old(w.faults)
    ensures w.free == if r.Handle? then old(w.free) - 1 else old(w.free)
    ensures r.Handle? ==> Reached(w.disks, slash, path, |path|, r.id, old(w.now), w.now)
    ensures w.faults == old(w.faults) && Frozen(w.disks, old(w.now), w.now) ==>
              r == FindRoot(w.disks(old(w.now)), slash, path, |path|)
  {
    hide Component;
    var started := w.Duplicate();
    if !started {
      return OpenFailed;
    }
    var current := slash;
    var i := 0;
    while i < |path|
      invariant 0 <= i <= |path|
      invariant w.now >= old(w.now) && w.faults >= old(w.faults) && w.free == old(w.free) - 1
      invariant Reached(w.disks, slash, path, i, current, old(w.now), w.now)
      invariant w.faults == old(w.faults) && Frozen(w.disks, old(w.now), w.now) ==>
                  FindRoot(w.disks(old(w.now)), slash, path, i) == Handle(current)
    {
      ghost var before := w.now;
      var next := OpenComponent(w, path, i, current);
      FrozenPart(w.disks, old(w.now), before, w.now);
      if w.faults == old(w.faults) && Frozen(w.disks, old(w.now), w.now) {
        assert w.disks(w.now) == w.disks(old(w.now));
        assert FindRoot(w.disks(old(w.now)), slash, path, i + 1) == next;
        if !next.Handle? {
          FailedEarly(w.disks(old(w.now)), slash, path, i + 1);
        }
      }
      if !next.Handle? {
        w.Close();
        return next;
      }
      ReachedLater(w.disks, slash, path, i, current, old(w.now), before, w.now);
      assert ReachedBy(w.disks, slash, path, i + 1, next.id, old(w.now), w.now, current);
      w.Close();
      current := next.id;
      i := i + 1;
    }
    r := Handle(current);
  }

  /** `verifyArtifactPath`. */
  method VerifyArtifactPath(w: World, slash: Id, path: Path, expected: FileState) returns (r: Outcome)
    modifies w
    ensures w.now >= old(w.now) && w.faults >= old(w.faults) && w.free == old(w.free)
    ensures r.Pass? ==> SeenBy(w.disks, old(w.now), w.now, expected) &&
                        Reached(w.disks, slash, path, |path|, expected.identity, old(w.now), w.now)
    ensures r.Fail? ==> r == Fail(ArtifactChangedDuringRead)
    ensures r.Fail? && w.faults == old(w.faults) && Frozen(w.disks, old(w.now), w.now) ==>
              FindRoot(w.disks(old(w.now)), slash, path, |path|) != Handle(expected.identity) ||
              !Shows(w.disks, old(w.now), expected)
  {
    var reopened := OpenArtifactRoot(w, slash, path);
    if !reopened.Handle? {
      return Fail(ArtifactChangedDuringRead);
    }
    ghost var reached := w.now;
    var actual := w.Stat(reopened.id);
    w.Close();
    FrozenPart(w.disks, old(w.now), reached, w.now);
    assert Frozen(w.disks, old(w.now), w.now) ==> w.disks(w.now) == w.disks(old(w.now));
    if actual.None? || FileChanged(expected, actual.value.state) {
      return Fail(ArtifactChangedDuringRead);
    }
    assert Shows(w.disks, w.now, expected);
    ReachedLater(w.disks, slash, path, |path|, reopened.id, old(w.now), reached, w.now);
    r := Pass;
  }

  /** On a disk that stands still there is one way down. */
  lemma {:induction false} ReachedStill(run: nat -> Disk, slash: Id, path: Path, i: nat, id: Id, first: nat,
                                        middle: nat, last: nat)
    requires i <= |path| && first <= middle && Reached(run, slash, path, i, id, middle, last)
    requires Frozen(run, first, last)
    ensures FindRoot(run(first), slash, path, i) == Handle(id)
    decreases i
  {
    hide Component;
    if i > 0 {
      var parent, t: nat :| middle <= t <= last && ReachedBy(run, slash, path, i, id, middle, t, parent);
      ReachedStill(run, slash, path, i - 1, parent, first, middle, t);
      assert run(t) == run(first);
    }
  }

  /** Where and when an artifact was exact, and that the declared path led there before and after. */
  ghost predicate Pinpointed(run: nat -> Disk, lib: Library, limits: Limits, slash: Id, path: Path,
                             o: ArtifactObservation, root: Id, first: nat, instant: nat, last: nat) {
    && first <= instant <= last
    && ArtifactAt(run(instant), lib, limits, root, o)
    && Reached(run, slash, path, |path|, root, first, instant)
    && Reached(run, slash, path, |path|, root, instant, last)
  }

  ghost predicate Digestible(disk: Disk, lib: Library, limits: Limits, root: Id) {
    root in disk && match disk[root].kind
      case Regular => disk[root].size <= limits.maxBytes && limits.maxFiles >= 1
      case Directory => Acceptable(disk, root, lib, limits) && exists q :: SelectedFile(disk, root, lib, limits, q)
      case _ => false
  }

  /** What an undisturbed digest accepts. */
  ghost predicate DigestibleAt(disk: Disk, lib: Library, limits: Limits, slash: Id, path: Path) {
    match FindRoot(disk, slash, path, |path|)
    case Handle(root) => Digestible(disk, lib, limits, root)
    case _ => false
  }

  ghost predicate SinglyLinkedAt(disk: Disk, slash: Id, path: Path) {
    match FindRoot(disk, slash, path, |path|)
    case Handle(root) => SinglyLinkedDirectories(disk, root)
    case _ => true
  }

  /** Nothing was selected at that instant. */
  ghost predicate NothingSelected(disk: Disk, lib: Library, limits: Limits, root: Id) {
    forall q :: !SelectedFile(disk, root, lib, limits, q)
  }

  /** What a failure with this code says of the root, on a disk that stood still. */
  ghost predicate ExplainedRoot(disk: Disk, lib: Library, limits: Limits, root: Id, reason: Reason) {
    if root !in disk then reason == ArtifactInaccessible
    else
      match disk[root].kind
      case Regular => reason == ArtifactScanLimitExceeded && (disk[root].size > limits.maxBytes || limits.maxFiles < 1)
      case Directory => if reason == ExpectationInvalid then NothingSelected(disk, lib, limits, root)
                        else Refusal(disk, root, lib, limits, reason)
      case _ => reason == ArtifactUnsupportedType
  }

  /** And of the path to it: a link where a file or directory must be, or nothing at all. */
  ghost predicate Explained(disk: Disk, lib: Library, limits: Limits, slash: Id, path: Path, reason: Reason) {
    match FindRoot(disk, slash, path, |path|)
    case Handle(root) => ExplainedRoot(disk, lib, limits, root, reason)
    case LinkRejected => reason == ArtifactSymlinkRejected
    case OpenFailed => reason == ArtifactInaccessible
  }

  lemma {:induction false} EmptySelectsNothing(disk: Disk, lib: Library, limits: Limits, root: Id, origins: seq<Origin>,
                                               tree: Tree)
    requires ExactTree(disk, root, lib, limits, origins, tree)
    ensures tree.entries == [] <==> NothingSelected(disk, lib, limits, root)
  {
    forall q | SelectedFile(disk, root, lib, limits, q) ensures tree.entries != [] {
      assert q != [];
      assert Origin(q, Resolve(disk, root, q).value) in origins;
    }
    if tree.entries != [] {
      assert Recorded(disk, root, lib, limits.selector, origins[0], tree.entries[0]);
      assert SelectedFile(disk, root, lib, limits, origins[0].raw);
    }
  }

  /** A root that is a single file. */
  method DigestFile(w: World, lib: Library, limits: Limits, slash: Id, path: Path, root: Id)
    returns (r: Result<ArtifactObservation, DigestReason>, ghost instant: nat)
    requires LawfulDisks(w.disks) && limits.maxBytes >= 0
    modifies w
    ensures old(w.now) <= instant <= w.now && w.faults >= old(w.faults) && w.free == old(w.free)
    ensures r.Ok? ==> FileArtifact(w.disks(instant), lib, root, r.value) &&
                      Reached(w.disks, slash, path, |path|, root, instant, w.now)
    ensures r.Err? ==> r.error != ExpectationInvalid
    ensures w.faults == old(w.faults) && Frozen(w.disks, old(w.now), w.now) && root in w.disks(old(w.now)) &&
            w.disks(old(w.now))[root].kind.Regular? &&
            FindRoot(w.disks(old(w.now)), slash, path, |path|) == Handle(root) ==>
              (r.Ok? <==> Digestible(w.disks(old(w.now)), lib, limits, root)) &&
              (r.Err? ==> ExplainedRoot(w.disks(old(w.now)), lib, limits, root, r.error))
  {
    ghost var began := w.now;
    instant := w.now;
    assert WellFormedAt(w.disks, began);
    var digest, hashed := DigestOpenedFile(w, lib, root, limits.maxBytes);
    instant := w.now;
    FrozenIsSteady(w.disks, root, began, instant);
    if digest.Err? {
      return Err(digest.error), instant;
    }
    if WouldExceed(0, 0, digest.value.size, limits.maxFiles, limits.maxBytes) {
      return Err(ArtifactScanLimitExceeded), instant;
    }
    var verified := VerifyArtifactPath(w, slash, path, digest.value.state);
    FrozenPart(w.disks, began, instant, w.now);
    if verified.Fail? {
      return Err(verified.reason), instant;
    }
    r := Ok(ArtifactObservation(digest.value.sha256, 1, digest.value.size, Some(digest.value.state.identity)));
  }

  /** `canonical.Marshal` and the hash of its bytes. */
  method HashEntries(lib: Library, entries: seq<TreeEntry>) returns (r: Option<string>)
    ensures r.Some? <==> Printable(TreeValue(entries))
    ensures r.Some? ==> r.value == TreeSha(lib, entries)
  {
    var encoded := new Buffer();
    var ok := AppendValue(encoded, TreeValue(entries));
    if !ok {
      return None;
    }
    assert encoded.text == Print(TreeValue(entries));
    r := Some(lib.sha256(Utf8.Encode(encoded.text)));
  }

  /** A root that is a directory. */
  method DigestTree(w: World, lib: Library, limits: Limits, slash: Id, path: Path, root: Id, rootState: FileState)
    returns (r: Result<ArtifactObservation, DigestReason>, ghost instant: nat)
    requires LawfulDisks(w.disks) && LawfulLibrary(lib) && 0 <= limits.maxBytes <= MAX_BYTES
    requires rootState.identity == root && Shows(w.disks, w.now, rootState)
    modifies w
    ensures old(w.now) <= instant <= w.now && w.faults >= old(w.faults) && w.free == old(w.free)
    ensures r.Ok? ==> ArtifactAt(w.disks(instant), lib, limits, root, r.value) &&
                      Reached(w.disks, slash, path, |path|, root, instant, w.now)
    ensures r == Err(ExpectationInvalid) ==> NothingSelected(w.disks(instant), lib, limits, root)
    ensures w.faults == old(w.faults) && Frozen(w.disks, old(w.now), w.now) &&
            SinglyLinkedDirectories(w.disks(old(w.now)), root) &&
            FindRoot(w.disks(old(w.now)), slash, path, |path|) == Handle(root) ==>
              (r.Ok? <==> (Acceptable(w.disks(old(w.now)), root, lib, limits) &&
                           !NothingSelected(w.disks(old(w.now)), lib, limits, root)))
    ensures w.faults == old(w.faults) && Frozen(w.disks, old(w.now), w.now) && r.Err? &&
            FindRoot(w.disks(old(w.now)), slash, path, |path|) == Handle(root) &&
            DirectoryPath(w.disks(old(w.now)), root, []) ==>
              ExplainedRoot(w.disks(old(w.now)), lib, limits, root, r.error)
  {
    hide Reached, FindRoot, Acceptable, LawfulLibrary, SinglyLinkedDirectories, NothingSelected, ExactTree, Refusal;
    ghost var began := w.now;
    var digested;
    ghost var origins;
    digested, instant, origins := DigestDirectory(w, lib, limits, root);
    ghost var read := w.now;
    if digested.Err? {
      return Err(digested.error), read;
    }
    FrozenPart(w.disks, began, instant, read);
    var tree := digested.value;
    assert WellFormedAt(w.disks, instant);
    ExactTreePrintable(w.disks(instant), root, lib, limits, origins, tree);
    EmptySelectsNothing(w.disks(instant), lib, limits, root, origins, tree);
    var verified := VerifyArtifactPath(w, slash, path, rootState);
    FrozenPart(w.disks, began, instant, w.now);
    FrozenPart(w.disks, began, read, w.now);
    if verified.Fail? {
      return Err(verified.reason), instant;
    }
    if tree.entries == [] {
      return Err(ExpectationInvalid), instant;
    }
    var digest := HashEntries(lib, tree.entries);
    if digest.None? {
      assert false;  // every size is a safe integer, so `canonical.Marshal` has nothing to refuse
    }
    r := Ok(ArtifactObservation(digest.value, |tree.entries|, tree.totalBytes, tree.entrypointIdentity));
    ReachedSooner(w.disks, slash, path, root, instant, read, w.now);
    assert TreeArtifact(w.disks(instant), lib, limits, root, origins, tree, r.value);
  }

  lemma {:induction false} ReachedSooner(run: nat -> Disk, slash: Id, path: Path, id: Id, sooner: nat, first: nat,
                                         last: nat)
    requires sooner <= first && Reached(run, slash, path, |path|, id, first, last)
    ensures Reached(run, slash, path, |path|, id, sooner, last)
  {
    ReachedFrom(run, slash, path, |path|, id, sooner, first, last);
  }

  lemma {:induction false} ReachedFrom(run: nat -> Disk, slash: Id, path: Path, i: nat, id: Id, sooner: nat, first: nat,
                                       last: nat)
    requires i <= |path| && sooner <= first && Reached(run, slash, path, i, id, first, last)
    ensures Reached(run, slash, path, i, id, sooner, last)
    decreases i
  {
    if i > 0 {
      var parent, t: nat :| first <= t <= last && ReachedBy(run, slash, path, i, id, first, t, parent);
      ReachedFrom(run, slash, path, i - 1, parent, sooner, first, t);
      assert ReachedBy(run, slash, path, i, id, sooner, t, parent);
    }
  }

  /** The opened root, by its kind. */
  method DigestRoot(w: World, lib: Library, limits: Limits, slash: Id, path: Path, root: Id)
    returns (r: Result<ArtifactObservation, DigestReason>, ghost instant: nat)
    requires LawfulDisks(w.disks) && LawfulLibrary(lib) && 0 <= limits.maxBytes <= MAX_BYTES
    modifies w
    ensures old(w.now) <= instant <= w.now && w.faults >= old(w.faults) && w.free == old(w.free) + 1
    ensures r.Ok? ==> ArtifactAt(w.disks(instant), lib, limits, root, r.value) &&
                      Reached(w.disks, slash, path, |path|, root, instant, w.now)
    ensures r == Err(ExpectationInvalid) ==> NothingSelected(w.disks(instant), lib, limits, root)
    ensures w.faults == old(w.faults) && Frozen(w.disks, old(w.now), w.now) &&
            SinglyLinkedDirectories(w.disks(old(w.now)), root) &&
            FindRoot(w.disks(old(w.now)), slash, path, |path|) == Handle(root) ==>
              (r.Ok? <==> Digestible(w.disks(old(w.now)), lib, limits, root))
    ensures w.faults == old(w.faults) && Frozen(w.disks, old(w.now), w.now) && r.Err? &&
            FindRoot(w.disks(old(w.now)), slash, path, |path|) == Handle(root) ==>
              ExplainedRoot(w.disks(old(w.now)), lib, limits, root, r.error)
  {
    hide Refusal, Reached, FindRoot, Acceptable, LawfulDisks, LawfulLibrary, SinglyLinkedDirectories, SelectedFile;
    ghost var began := w.now;
    var info := w.Stat(root);
    instant := w.now;
    FrozenPart(w.disks, began, instant, instant);
    if info.None? {
      r := Err(ArtifactInaccessible);
    } else if info.value.kind.Regular? {
      r, instant := DigestFile(w, lib, limits, slash, path, root);
    } else if !info.value.kind.Directory? {
      r := Err(ArtifactUnsupportedType);
    } else {
      r, instant := DigestTree(w, lib, limits, slash, path, root, info.value.state);
    }
    w.Close();
    FrozenPart(w.disks, began, instant, w.now);
  }

  /**
    `Digest`.  A result was exact at one instant of the call, under a root the declared
    path led to both before and after that instant.  Left undisturbed, the call succeeds
    exactly on digestible roots.  Only an expectation that selects nothing is called invalid.
   */
  method Digest(w: World, lib: Library, limits: Limits, slash: Id, path: Path)
    returns (r: Result<ArtifactObservation, DigestReason>, ghost root: Id, ghost instant: nat)
    requires LawfulDisks(w.disks) && LawfulLibrary(lib) && 0 <= limits.maxBytes <= MAX_BYTES
    modifies w
    ensures old(w.now) <= instant <= w.now && w.faults >= old(w.faults) && w.free == old(w.free)
    ensures r.Ok? ==> Pinpointed(w.disks, lib, limits, slash, path, r.value, root, old(w.now), instant, w.now)
    ensures r == Err(ExpectationInvalid) ==> NothingSelected(w.disks(instant), lib, limits, root)
    ensures w.faults == old(w.faults) && Frozen(w.disks, old(w.now), w.now) &&
            SinglyLinkedAt(w.disks(old(w.now)), slash, path) ==>
              (r.Ok? <==> DigestibleAt(w.disks(old(w.now)), lib, limits, slash, path))
    ensures w.faults == old(w.faults) && Frozen(w.disks, old(w.now), w.now) && r.Err? ==>
              Explained(w.disks(old(w.now)), lib, limits, slash, path, r.error)
  {
    hide ExplainedRoot, Reached, FindRoot, Digestible, NothingSelected, LawfulDisks, LawfulLibrary,
      SinglyLinkedDirectories;
    ghost var began := w.now;
    instant, root := w.now, slash;
    var active := CheckActive(w);
    if active.Fail? {
      return Err(active.reason), root, instant;
    }
    ghost var opening := w.now;
    var found := OpenArtifactRoot(w, slash, path);
    FrozenPart(w.disks, began, opening, w.now);
    if !found.Handle? {
      return Err(ClassifyOpen(found)), root, instant;
    }
    root := found.id;
    ghost var reached := w.now;
    r, instant := DigestRoot(w, lib, limits, slash, path, found.id);
    FrozenPart(w.disks, began, reached, w.now);
    ReachedWithin(w.disks, slash, path, root, began, opening, reached, instant);
  }

  lemma {:induction false} ReachedWithin(run: nat -> Disk, slash: Id, path: Path, id: Id, sooner: nat, first: nat,
                                         last: nat, later: nat)
    requires sooner <= first && last <= later && Reached(run, slash, path, |path|, id, first, last)
    ensures Reached(run, slash, path, |path|, id, sooner, later)
  {
    ReachedLater(run, slash, path, |path|, id, first, last, later);
    ReachedSooner(run, slash, path, id, sooner, first, later);
  }
}
