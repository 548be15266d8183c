/** Both passes of the directory digest, and the instant they agree on. */
module TreeDigest {
  import opened Basics
  import opened Decisions
  import opened FileDigest
  import opened Kernel
  import opened LexOrder
  import opened Selection
  import opened TreeAcceptance
  import opened TreeSpec
  import opened TreeWalk
  import opened WalkPromise

  datatype Tree = Tree(entries: seq<TreeEntry>, totalBytes: int64, entrypointIdentity: Option<Id>)

  /**
    The tree under `root` at one instant: nothing but directories and regular
    files anywhere below it, and the list holds exactly one entry (normalized
    path, hash, size) for each selected regular file, and nothing else.
   */
  ghost predicate ExactTree(disk: Disk, root: Id, lib: Library, limits: Limits, origins: seq<Origin>, tree: Tree) {
    && root in disk && disk[root].kind.Directory?
    && |origins| == |tree.entries|
    && (forall q, id | q != [] && Resolve(disk, root, q) == Some(id) ::
          && id in disk && (disk[id].kind.Directory? || disk[id].kind.Regular?)
          && (disk[id].kind.Regular? && Selected(lib, limits.selector, Normal(lib, q)) ==> Origin(q, id) in origins))
    && (forall i | 0 <= i < |origins| :: Recorded(disk, root, lib, limits.selector, origins[i], tree.entries[i]))
    && DistinctPaths(tree.entries)
    && tree.totalBytes as int == TotalSize(tree.entries) && |tree.entries| <= limits.maxFiles
    && tree.totalBytes <= limits.maxBytes
    && EntrypointLinked(NormalizeRelative(lib, limits.entrypoint), tree.entries, origins, tree.entrypointIdentity)
  }

  /** The recorded path still leads to the recorded state. */
  ghost predicate Leads(disk: Disk, root: Id, snapshot: Pinned) {
    && WellFormed(disk) && Resolve(disk, root, snapshot.path) == Some(snapshot.state.identity)
    && !Irregular(disk, root, snapshot.path) && snapshot.state.identity in disk
    && StateOf(snapshot.state.identity, disk[snapshot.state.identity]) == snapshot.state
  }

  /** On a tree at rest the first `i` names lead to `current`. */
  ghost predicate Followed(run: nat -> Disk, root: Id, path: Path, i: nat, current: Id, first: nat, last: nat) {
    i <= |path| && (Frozen(run, first, last) && root in run(first) ==>
                      Resolve(run(first), root, path[..i]) == Some(current))
  }

  lemma FollowedFirst(run: nat -> Disk, root: Id, path: Path, first: nat, last: nat)
    ensures Followed(run, root, path, 0, root, first, last)
  {
  }

  lemma FollowedLonger(run: nat -> Disk, root: Id, path: Path, i: nat, current: Id, first: nat, middle: nat, last: nat)
    requires Followed(run, root, path, i, current, first, middle) && middle <= last
    ensures Followed(run, root, path, i, current, first, last)
  {
  }

  lemma {:induction false} FollowedOn(run: nat -> Disk, root: Id, path: Path, i: nat, current: Id, next: Id,
                                      first: nat, middle: nat, last: nat)
    requires Followed(run, root, path, i, current, first, middle) && i < |path| && first <= middle <= last
    requires Lookup(run(last), current, path[i]) == Handle(next)
    ensures Followed(run, root, path, i + 1, next, first, last)
  {
    hide Resolve;
    if Frozen(run, first, last) && root in run(first) {
      assert run(last) == run(first) && Frozen(run, first, middle);
      ResolveStep(run(first), root, path[..i], current, path[i]);
      assert path[..i + 1] == path[..i] + [path[i]];
    }
  }

  /** A path that ends before its last name leads nowhere. */
  lemma {:induction false} NoWayOn(run: nat -> Disk, root: Id, snapshot: Pinned, i: nat, current: Id,
                                   first: nat, middle: nat, last: nat)
    requires Followed(run, root, snapshot.path, i, current, first, middle) && i < |snapshot.path|
    requires first <= middle <= last && !Lookup(run(last), current, snapshot.path[i]).Handle?
    ensures Frozen(run, first, last) ==> !Leads(run(first), root, snapshot)
  {
    hide Irregular, Lookup;
    if Frozen(run, first, last) && Leads(run(first), root, snapshot) {
      assert run(last) == run(first) && Frozen(run, first, middle);
      BlockedPath(run(first), root, snapshot.path, i, current);
    }
  }

  lemma {:induction false} FollowedToTheEnd(run: nat -> Disk, root: Id, snapshot: Pinned, current: Id,
                                            first: nat, last: nat)
    requires Followed(run, root, snapshot.path, |snapshot.path|, current, first, last) && first <= last
    ensures Frozen(run, first, last) && root in run(first) ==>
              Resolve(run(first), root, snapshot.path) == Some(current)
    ensures Frozen(run, first, last) && Leads(run(first), root, snapshot) ==>
              current == snapshot.state.identity && current in run(last) &&
              StateOf(current, run(last)[current]) == snapshot.state
  {
    hide Irregular;
    assert snapshot.path[..|snapshot.path|] == snapshot.path;
    if Frozen(run, first, last) {
      assert run(last) == run(first);
    }
  }

  /** `openRelativeNoFollow` and the comparison after it. */
  method VerifyRelativeSnapshot(w: World, root: Id, snapshot: Pinned) returns (r: Outcome)
    modifies w
    ensures w.now >= old(w.now) && w.free == old(w.free) && w.faults >= old(w.faults)
    ensures r.Pass? ==> SeenBy(w.disks, old(w.now), w.now, snapshot.state)
    ensures r.Fail? ==> r.reason == ArtifactChangedDuringRead
    ensures r.Pass? && Frozen(w.disks, old(w.now), w.now) && root in w.disks(old(w.now)) ==>
              Resolve(w.disks(old(w.now)), root, snapshot.path) == Some(snapshot.state.identity)
    ensures r.Fail? && w.faults == old(w.faults) && Frozen(w.disks, old(w.now), w.now) ==>
              !Leads(w.disks(old(w.now)), root, snapshot)
  {
    hide LawfulDisks, Resolve, Leads, Followed, Lookup;
    ghost var began := w.now;
    var duplicated := w.Duplicate();
    if !duplicated {
      return Fail(ArtifactChangedDuringRead);
    }
    var current := root;
    var i := 0;
    FollowedFirst(w.disks, root, snapshot.path, began, w.now);
    while i < |snapshot.path|
      invariant 0 <= i <= |snapshot.path|
      invariant w.now >= began && w.free == old(w.free) - 1 && w.faults >= old(w.faults)
      invariant Followed(w.disks, root, snapshot.path, i, current, began, w.now)
    {
      ghost var middle := w.now;
      var next := w.OpenChild(current, snapshot.path[i]);
      w.Close();
      if !next.Handle? {
        if !Lookup(w.disks(w.now), current, snapshot.path[i]).Handle? {
          NoWayOn(w.disks, root, snapshot, i, current, began, middle, w.now);
        }
        return Fail(ArtifactChangedDuringRead);
      }
      FollowedOn(w.disks, root, snapshot.path, i, current, next.id, began, middle, w.now);
      current := next.id;
      i := i + 1;
    }
    ghost var middle := w.now;
    var actual := w.Stat(current);
    FollowedLonger(w.disks, root, snapshot.path, i, current, began, middle, w.now);
    FollowedToTheEnd(w.disks, root, snapshot, current, began, w.now);
    w.Close();
    if actual.None? || FileChanged(snapshot.state, actual.value.state) {
      return Fail(ArtifactChangedDuringRead);
    }
    assert Shows(w.disks, w.now, snapshot.state);
    return Pass;
  }

  predicate SortedByPath(entries: seq<TreeEntry>) {
    forall i, j | 0 <= i < j < |entries| :: Less(Codes(entries[i].path), Codes(entries[j].path))
  }

  ghost function Pairs(origins: seq<Origin>, entries: seq<TreeEntry>): set<(Origin, TreeEntry)>
    requires |origins| == |entries|
  {
    set i | 0 <= i < |entries| :: (origins[i], entries[i])
  }

  lemma {:induction false} TotalSizeConcat(a: seq<TreeEntry>, b: seq<TreeEntry>)
    ensures TotalSize(a + b) == TotalSize(a) + TotalSize(b)
    decreases |b|
  {
    if b == [] {
      assert a + b == a;
    } else {
      assert (a + b)[..|a + b| - 1] == a + b[..|b| - 1];
      TotalSizeConcat(a, b[..|b| - 1]);
    }
  }

  function PathCodes(e: TreeEntry): seq<int> {
    Codes(e.path)
  }

  /** `slices.SortFunc` with `strings.Compare` on the paths; the ghost list moves along. */
  method SortEntries(entries: seq<TreeEntry>, ghost origins: seq<Origin>)
    returns (sorted: seq<TreeEntry>, ghost moved: seq<Origin>)
    requires |origins| == |entries| && DistinctPaths(entries)
    ensures |moved| == |sorted| == |entries| && Pairs(moved, sorted) == Pairs(origins, entries)
    ensures SortedByPath(sorted) && TotalSize(sorted) == TotalSize(entries)
  {
    PathsApart(entries);
    sorted := SortBy(entries, PathCodes);
    SameMembersOf(sorted, entries);
    TotalSizeOf(sorted, entries);
    moved := OriginsFor(sorted, entries, origins);
    MovedAlong(sorted, entries, origins);
  }

  lemma PathsApart(entries: seq<TreeEntry>)
    requires DistinctPaths(entries)
    ensures DistinctBy(entries, PathCodes)
  {
    forall i, j | 0 <= i < j < |entries| ensures PathCodes(entries[i]) != PathCodes(entries[j]) {
      if PathCodes(entries[i]) == PathCodes(entries[j]) {
        CodesInjective(entries[i].path, entries[j].path);
      }
    }
  }

  lemma {:induction false} TotalWithout(entries: seq<TreeEntry>, k: nat)
    requires k < |entries|
    ensures TotalSize(entries) == TotalSize(entries[..k] + entries[k + 1..]) + entries[k].size as int
  {
    var before, after := entries[..k], entries[k + 1..];
    TotalSizeConcat(before + [entries[k]], after);
    TotalSizeConcat(before, [entries[k]]);
    TotalSizeConcat(before, after);
    assert entries == before + [entries[k]] + after && [entries[k]][..0] == [];
  }

  lemma RemovedOne<T>(items: seq<T>, k: nat)
    requires k < |items|
    ensures multiset(items[..k] + items[k + 1..]) == multiset(items) - multiset{items[k]}
  {
    assert items == items[..k] + [items[k]] + items[k + 1..];
  }

  /** The same entries in another order have the same total. */
  lemma {:induction false} TotalSizeOf(a: seq<TreeEntry>, b: seq<TreeEntry>)
    requires multiset(a) == multiset(b)
    ensures TotalSize(a) == TotalSize(b)
    decreases |a|
  {
    SameMembersOf(a, b);
    if a != [] {
      assert a[|a| - 1] in b;
      var k :| 0 <= k < |b| && b[k] == a[|a| - 1];
      RemovedOne(a, |a| - 1);
      RemovedOne(b, k);
      assert a[..|a| - 1] + a[|a|..] == a[..|a| - 1];
      TotalSizeOf(a[..|a| - 1], b[..k] + b[k + 1..]);
      TotalWithout(b, k);
    }
  }

  ghost function OriginOf(e: TreeEntry, entries: seq<TreeEntry>, origins: seq<Origin>): Origin
    requires |origins| == |entries| && e in entries
  {
    var j :| 0 <= j < |entries| && entries[j] == e;
    origins[j]
  }

  ghost function OriginsFor(sorted: seq<TreeEntry>, entries: seq<TreeEntry>, origins: seq<Origin>): (r: seq<Origin>)
    requires |origins| == |entries| && forall e | e in sorted :: e in entries
    ensures |r| == |sorted| && forall i | 0 <= i < |sorted| :: r[i] == OriginOf(sorted[i], entries, origins)
  {
    seq(|sorted|, i requires 0 <= i < |sorted| => OriginOf(sorted[i], entries, origins))
  }

  lemma {:induction false} MovedAlong(sorted: seq<TreeEntry>, entries: seq<TreeEntry>, origins: seq<Origin>)
    requires |origins| == |entries| && DistinctPaths(entries) && forall e :: e in sorted <==> e in entries
    ensures Pairs(OriginsFor(sorted, entries, origins), sorted) == Pairs(origins, entries)
  {
    var moved := OriginsFor(sorted, entries, origins);
    forall pair ensures pair in Pairs(moved, sorted) <==> pair in Pairs(origins, entries) {
      if pair in Pairs(moved, sorted) {
        var i :| 0 <= i < |sorted| && pair == (moved[i], sorted[i]);
        var j :| 0 <= j < |entries| && entries[j] == sorted[i] && moved[i] == origins[j];
      }
      if pair in Pairs(origins, entries) {
        var j :| 0 <= j < |entries| && pair == (origins[j], entries[j]);
        assert entries[j] in sorted;
        var i :| 0 <= i < |sorted| && sorted[i] == entries[j];
        SamePlace(entries, origins, j);
        assert pair == (moved[i], sorted[i]);
      }
    }
  }

  lemma SameIndex(entries: seq<TreeEntry>, k: nat, j: nat)
    requires DistinctPaths(entries) && k < |entries| && j < |entries| && entries[k] == entries[j]
    ensures k == j
  {
  }

  lemma SamePlace(entries: seq<TreeEntry>, origins: seq<Origin>, j: nat)
    requires |origins| == |entries| && DistinctPaths(entries) && j < |entries|
    ensures OriginOf(entries[j], entries, origins) == origins[j]
  {
    var k :| 0 <= k < |entries| && entries[k] == entries[j] && OriginOf(entries[j], entries, origins) == origins[k];
    SameIndex(entries, k, j);
  }

  lemma {:induction false} SortedMeansDistinct(entries: seq<TreeEntry>)
    requires SortedByPath(entries)
    ensures DistinctPaths(entries)
  {
    forall i, j | 0 <= i < j < |entries| ensures entries[i].path != entries[j].path {
      LessTotal(Codes(entries[i].path), Codes(entries[j].path));
    }
  }

  /** Covered from the root, then sorted: the exact tree. */
  lemma {:induction false} SortedCoverIsExact(disk: Disk, root: Id, lib: Library, limits: Limits, pins: seq<Pinned>,
                                              origins: seq<Origin>, entries: seq<TreeEntry>, moved: seq<Origin>,
                                              tree: Tree)
    requires root in disk && disk[root].kind.Directory?
    requires Covered(disk, root, lib, limits.selector, [], disk[root].table.Keys, origins, entries, pins)
    requires |moved| == |tree.entries| == |entries| && Pairs(moved, tree.entries) == Pairs(origins, entries)
    requires SortedByPath(tree.entries) && |entries| <= limits.maxFiles
    requires tree.totalBytes as int == TotalSize(tree.entries) && tree.totalBytes <= limits.maxBytes
    requires EntrypointLinked(NormalizeRelative(lib, limits.entrypoint), entries, origins, tree.entrypointIdentity)
    ensures ExactTree(disk, root, lib, limits, moved, tree)
  {
    hide EntrypointLinked, NormalizeRelative, SortedByPath, DistinctPaths, TotalSize, Selected, Normal, Recorded;
    forall q, id | q != [] && Resolve(disk, root, q) == Some(id)
      ensures id in disk && (disk[id].kind.Directory? || disk[id].kind.Regular?)
      ensures disk[id].kind.Regular? && Selected(lib, limits.selector, Normal(lib, q)) ==> Origin(q, id) in moved
    {
      assert Beyond([], disk[root].table.Keys, q);
      assert Accounted(disk, root, lib, limits.selector, q, origins, pins);
      if disk[id].kind.Regular? && Selected(lib, limits.selector, Normal(lib, q)) {
        var i :| 0 <= i < |origins| && origins[i] == Origin(q, id);
        assert (origins[i], entries[i]) in Pairs(moved, tree.entries);
      }
    }
    forall i | 0 <= i < |moved|
      ensures Recorded(disk, root, lib, limits.selector, moved[i], tree.entries[i])
    {
      var j := PairedAt(moved, tree.entries, origins, entries, i);
    }
    SortedMeansDistinct(tree.entries);
    LinkSurvives(NormalizeRelative(lib, limits.entrypoint), origins, entries, moved, tree);
  }

  lemma PairedAt(a: seq<Origin>, b: seq<TreeEntry>, a': seq<Origin>, b': seq<TreeEntry>, i: nat) returns (j: nat)
    requires |a| == |b| && |a'| == |b'| && Pairs(a, b) == Pairs(a', b') && i < |a|
    ensures j < |a'| && a'[j] == a[i] && b'[j] == b[i]
  {
    assert (a[i], b[i]) in Pairs(a', b');
    j :| 0 <= j < |b'| && (a'[j], b'[j]) == (a[i], b[i]);
  }

  lemma {:induction false} LinkSurvives(entrypoint: Option<Path>, origins: seq<Origin>, entries: seq<TreeEntry>,
                                        moved: seq<Origin>, tree: Tree)
    requires |moved| == |tree.entries| == |entries| == |origins| &&
             Pairs(moved, tree.entries) == Pairs(origins, entries)
    requires EntrypointLinked(entrypoint, entries, origins, tree.entrypointIdentity)
    ensures EntrypointLinked(entrypoint, tree.entries, moved, tree.entrypointIdentity)
  {
    if entrypoint.Some? {
      forall i | 0 <= i < |moved| && tree.entries[i].path == Slash(entrypoint.value)
        ensures tree.entrypointIdentity == Some(moved[i].id)
      {
        var j := PairedAt(moved, tree.entries, origins, entries, i);
      }
      if tree.entrypointIdentity.Some? {
        var e :| e in entries && e.path == Slash(entrypoint.value);
        var i :| 0 <= i < |entries| && entries[i] == e;
        var j := PairedAt(origins, entries, moved, tree.entries, i);
        assert tree.entries[j] in tree.entries;
      }
    }
  }

  lemma FrozenPart(run: nat -> Disk, first: nat, middle: nat, last: nat)
    requires first <= middle <= last
    ensures Frozen(run, first, last) ==>
              Frozen(run, first, middle) && Frozen(run, middle, last) && run(middle) == run(first)
  {
    if Frozen(run, first, last) {
      assert run(middle) == run(first);
    }
  }

  /** The second pass. */
  method VerifySnapshots(w: World, root: Id, snapshots: seq<Pinned>) returns (r: Outcome)
    modifies w
    ensures w.now >= old(w.now) && w.free == old(w.free) && w.faults >= old(w.faults)
    ensures r.Pass? ==> forall j | 0 <= j < |snapshots| :: SeenBy(w.disks, old(w.now), w.now, snapshots[j].state)
    ensures r.Pass? && Frozen(w.disks, old(w.now), w.now) && root in w.disks(old(w.now)) ==>
              AllLead(w.disks(old(w.now)), root, snapshots)
    ensures r.Fail? ==> r.reason == ArtifactChangedDuringRead
    ensures r.Fail? && w.faults == old(w.faults) && Frozen(w.disks, old(w.now), w.now) ==>
              exists p | p in snapshots :: !Leads(w.disks(old(w.now)), root, p)
  {
    hide Leads, Resolve, Frozen;
    var i := 0;
    while i < |snapshots|
      invariant 0 <= i <= |snapshots|
      invariant w.now >= old(w.now) && w.free == old(w.free) && w.faults >= old(w.faults)
      invariant forall j | 0 <= j < i :: SeenBy(w.disks, old(w.now), w.now, snapshots[j].state)
      invariant Frozen(w.disks, old(w.now), w.now) && root in w.disks(old(w.now)) ==>
                  forall j | 0 <= j < i ::
                      Resolve(w.disks(old(w.now)), root, snapshots[j].path) == Some(snapshots[j].state.identity)
    {
      ghost var before := w.now;
      var verified := VerifyRelativeSnapshot(w, root, snapshots[i]);
      FrozenPart(w.disks, old(w.now), before, w.now);
      if verified.Fail? {
        return verified;
      }
      i := i + 1;
    }
    return Pass;
  }

  /**
    `digestDirectory`.  Success names one instant, the moment the walk was over
    and the second pass began, at which the tree was exactly what is returned.
    Left undisturbed, it succeeds exactly on the acceptable trees.
   */
  method DigestDirectory(w: World, lib: Library, limits: Limits, root: Id)
    returns (r: Result<Tree, ScanReason>, ghost instant: nat, ghost origins: seq<Origin>)
    requires LawfulDisks(w.disks) && LawfulLibrary(lib) && limits.maxBytes >= 0
    modifies w
    ensures w.now >= old(w.now) && w.free == old(w.free) && w.faults >= old(w.faults)
    ensures r.Ok? ==> old(w.now) <= instant <= w.now && SortedByPath(r.value.entries) &&
                      ExactTree(w.disks(instant), root, lib, limits, origins, r.value)
    ensures w.faults == old(w.faults) && Frozen(w.disks, old(w.now), w.now) &&
            SinglyLinkedDirectories(w.disks(old(w.now)), root) ==>
              (r.Ok? <==> Acceptable(w.disks(old(w.now)), root, lib, limits))
    ensures w.faults == old(w.faults) && Frozen(w.disks, old(w.now), w.now) && r.Err? &&
            DirectoryPath(w.disks(old(w.now)), root, []) ==>
              Refusal(w.disks(old(w.now)), root, lib, limits, r.error)
  {
    hide Refusal;
    ghost var began := w.now;
    instant, origins := w.now, [];
    var state := w.Stat(root);
    if state.None? {
      return Err(ArtifactInaccessible), instant, origins;
    }
    var walker := new Walker(w, lib, limits, root, state.value.state);
    FrozenPart(w.disks, began, w.now, w.now);
    var passed;
    passed, instant := BothPasses(walker);
    FrozenPart(w.disks, began, walker.start, w.now);
    if passed.Fail? {
      return Err(passed.reason), instant, origins;
    }
    var entries;
    entries, origins := SortEntries(walker.entries, walker.origins);
    var tree := Tree(entries, walker.totalBytes, walker.entrypointIdentity);
    SortedCoverIsExact(w.disks(instant), root, lib, limits, walker.snapshots[1..], walker.origins, walker.entries,
      origins, tree);
    r := Ok(tree);
  }

  /** The walk, then the second pass over everything it noted. */
  method BothPasses(walker: Walker) returns (r: Outcome, ghost instant: nat)
    requires walker.Valid() && walker.entries == [] && walker.origins == []
    requires LawfulDisks(walker.w.disks) && LawfulLibrary(walker.lib)
    requires walker.start == walker.w.now && walker.faultsBefore == walker.w.faults
    requires |walker.snapshots| == 1 && walker.snapshots[0].path == [] &&
             walker.snapshots[0].state.identity == walker.root
    requires Shows(walker.w.disks, walker.start, walker.snapshots[0].state)
    modifies walker, walker.w
    ensures walker.w.now >= old(walker.w.now) && walker.w.free == old(walker.w.free) &&
            walker.w.faults >= old(walker.w.faults)
    ensures old(walker.w.now) <= instant <= walker.w.now
    ensures r.Pass? ==> walker.Valid() && |walker.snapshots| > 0 && CoveredAt(walker, instant)
    ensures walker.w.faults == old(walker.w.faults) && Frozen(walker.w.disks, walker.start, walker.w.now) &&
            SinglyLinkedDirectories(walker.Disk0(), walker.root) ==>
              (r.Pass? <==> Acceptable(walker.Disk0(), walker.root, walker.lib, walker.limits))
    ensures walker.w.faults == old(walker.w.faults) && Frozen(walker.w.disks, walker.start, walker.w.now) &&
            DirectoryPath(walker.Disk0(), walker.root, []) && r.Fail? ==>
              Refusal(walker.Disk0(), walker.root, walker.lib, walker.limits, r.reason)
  {
    var w := walker.w;
    ghost var disk0, root, lib, limits := walker.Disk0(), walker.root, walker.lib, walker.limits;
    ghost var state := walker.snapshots[0].state;
    instant := w.now;
    if walker.Calm() {
      assert Grounded(disk0, root, lib, limits, [], walker.snapshots[0]);
    }
    r := walker.WalkPinnedDirectory(walker.root, [], []);
    instant := w.now;
    if r.Fail? {
      if Objection(disk0, root, lib, limits, r.reason) {
        ObjectionRefuses(disk0, root, lib, limits, r.reason);
      }
      return;
    }
    ghost var settled := walker.Calm();
    r := VerifySnapshots(w, walker.root, walker.snapshots);
    FrozenPart(w.disks, walker.start, instant, w.now);
    if r.Fail? {
      if settled {
        SecondPassRefuses(walker, disk0);
      }
      return;
    }
    SecondPassPins(w.disks, root, state, walker.start, instant, w.now, walker.snapshots);
    assert Undisturbed(walker.Surveyed(), [], root, walker.start, instant, walker.snapshots[1..], instant);
    if Frozen(w.disks, walker.start, w.now) && SinglyLinkedDirectories(disk0, root) {
      assert WellFormedAt(w.disks, walker.start);
      SuccessAccepts(disk0, root, lib, limits, walker.snapshots[1..], walker.origins, walker.entries);
    }
  }

  ghost predicate CoveredAt(walker: Walker, t: nat)
    requires |walker.snapshots| > 0
    reads walker
  {
    var disk := walker.w.disks(t);
    && walker.root in disk && disk[walker.root].kind.Directory?
    && Covered(disk, walker.root, walker.lib, walker.limits.selector, [], disk[walker.root].table.Keys,
               walker.origins, walker.entries, walker.snapshots[1..])
  }

  /** A record that no longer leads to its state, on a disk that stands still, was under a name not in normal form. */
  lemma {:induction false} SecondPassRefuses(walker: Walker, disk: Disk)
    requires LawfulDisks(walker.w.disks) && disk == walker.Disk0()
    requires AllGrounded(disk, walker.root, walker.lib, walker.limits, walker.snapshots)
    ensures (exists p | p in walker.snapshots :: !Leads(disk, walker.root, p)) ==>
              !Acceptable(disk, walker.root, walker.lib, walker.limits) &&
              Refusal(disk, walker.root, walker.lib, walker.limits, ArtifactChangedDuringRead)
  {
    assert WellFormedAt(walker.w.disks, walker.start);
    if p :| p in walker.snapshots && !Leads(disk, walker.root, p) {
      var q :| Grounded(disk, walker.root, walker.lib, walker.limits, q, p);
      assert Normal(walker.lib, q) != q;
    }
  }

  /** Every record shows at the instant between the passes, and the root stood still since its own. */
  lemma {:induction false} SecondPassPins(run: nat -> Disk, root: Id, state: FileState, shown: nat, instant: nat,
                                          last: nat, snapshots: seq<Pinned>)
    requires LawfulDisks(run) && shown <= instant <= last
    requires snapshots != [] && snapshots[0] == Pinned([], state) && state.identity == root && Shows(run, shown, state)
    requires Observed(run, shown, instant, snapshots[1..])
    requires forall j | 0 <= j < |snapshots| :: SeenBy(run, instant, last, snapshots[j].state)
    ensures AllShow(run, instant, snapshots) && Steady(run, root, shown, instant)
  {
    forall p | p in snapshots ensures Shows(run, instant, p.state) {
      var j :| 0 <= j < |snapshots| && snapshots[j] == p;
      var later: nat :| instant <= later <= last && Shows(run, later, p.state);
      if j > 0 {
        assert p == snapshots[1..][j - 1];
        assert SeenBy(run, shown, instant, p.state);
      } else {
        assert SeenBy(run, shown, instant, p.state);
      }
      var earlier: nat :| shown <= earlier <= instant && Shows(run, earlier, p.state);
      assert SeenBy(run, 0, instant, p.state);
      ShownAgain(run, p.state, instant, later);
    }
    assert Shows(run, instant, snapshots[0].state);
    EqualStatesPin(run, state, shown, instant);
  }
}
