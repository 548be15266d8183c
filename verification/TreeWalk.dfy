/**
  The pinned directory walk (internal/artifact/digest_secure_unix.go).  Others
  keep changing the disk between any two system calls.
 */
module TreeWalk {
  import opened Basics
  import opened Decisions
  import opened FileDigest
  import opened Kernel
  import opened Selection
  import opened TreeAcceptance
  import opened TreeSpec
  import opened WalkPromise

  function NormalizeRelative(lib: Library, path: Path): Option<Path> {
    if path == [] || exists s | s in path :: s == "" || s == "." || s == ".." || '\0' in s then None
    else Some(Normal(lib, path))
  }

  ghost predicate Listed(entries: seq<TreeEntry>, path: string) {
    exists e | e in entries :: e.path == path
  }

  /** Every entry at the declared entrypoint came from the remembered identity; none, and none is remembered. */
  ghost predicate EntrypointLinked(entrypoint: Option<Path>, entries: seq<TreeEntry>, origins: seq<Origin>,
                                   identity: Option<Id>)
    requires |origins| == |entries|
  {
    match entrypoint
    case None => identity == None
    case Some(path) =>
      && (forall i | 0 <= i < |entries| && entries[i].path == Slash(path) :: identity == Some(origins[i].id))
      && (identity.Some? ==> Listed(entries, Slash(path)))
  }

  lemma ListedSnoc(entries: seq<TreeEntry>, entry: TreeEntry, path: string)
    ensures Listed(entries + [entry], path) <==> Listed(entries, path) || path == entry.path
  {
    assert entry in entries + [entry];
    if Listed(entries, path) {
      var e :| e in entries && e.path == path;
      assert e in entries + [entry];
    }
  }

  lemma DistinctSnoc(entries: seq<TreeEntry>, entry: TreeEntry)
    requires DistinctPaths(entries) && !Listed(entries, entry.path)
    ensures DistinctPaths(entries + [entry])
  {
  }

  lemma LinkedSnoc(entrypoint: Option<Path>, entries: seq<TreeEntry>, origins: seq<Origin>, identity: Option<Id>,
                   entry: TreeEntry, origin: Origin)
    requires |origins| == |entries| && EntrypointLinked(entrypoint, entries, origins, identity)
    requires !Listed(entries, entry.path)
    ensures EntrypointLinked(entrypoint, entries + [entry], origins + [origin],
                             if entrypoint.Some? && Slash(entrypoint.value) == entry.path
                             then Some(origin.id) else identity)
  {
    if entrypoint.Some? {
      ListedSnoc(entries, entry, Slash(entrypoint.value));
      forall i | 0 <= i < |entries| ensures entries[i].path != entry.path {
        assert entries[i] in entries;
      }
    }
  }

  /** The walker's bookkeeping; the claimed keys are those that have no entry yet. */
  ghost predicate Books(limits: Limits, entrypoint: Option<Path>, claimed: set<string>, seen: map<string, string>,
                        entries: seq<TreeEntry>, origins: seq<Origin>, totalBytes: int64, identity: Option<Id>) {
    && |origins| == |entries| && limits.maxBytes >= 0
    && (forall path :: path in seen <==> path in claimed || Listed(entries, path))
    && (forall path | path in claimed :: !Listed(entries, path))
    && DistinctPaths(entries)
    && totalBytes as int == TotalSize(entries) && 0 <= totalBytes <= limits.maxBytes && |entries| <= limits.maxFiles
    && EntrypointLinked(entrypoint, entries, origins, identity)
  }

  lemma BooksAppend(limits: Limits, entrypoint: Option<Path>, seen: map<string, string>, entries: seq<TreeEntry>,
                    origins: seq<Origin>, totalBytes: int64, identity: Option<Id>, entry: TreeEntry, origin: Origin)
    requires Books(limits, entrypoint, {entry.path}, seen, entries, origins, totalBytes, identity)
    requires !WouldExceed(|entries|, totalBytes, entry.size, limits.maxFiles, limits.maxBytes)
    ensures Books(limits, entrypoint, {}, seen, entries + [entry], origins + [origin], totalBytes + entry.size,
                  if entrypoint.Some? && Slash(entrypoint.value) == entry.path then Some(origin.id) else identity)
  {
    assert (entries + [entry])[..|entries|] == entries;
    DistinctSnoc(entries, entry);
    LinkedSnoc(entrypoint, entries, origins, identity, entry, origin);
    forall path ensures path in seen <==> Listed(entries + [entry], path) {
      ListedSnoc(entries, entry, path);
    }
  }

  /** No recorded file lies at `raw` or below. */
  ghost predicate Fresh(raw: Path, origins: seq<Origin>) {
    forall i | 0 <= i < |origins| :: !(raw <= origins[i].raw)
  }

  lemma {:induction false} StillFresh(raw: Path, names: seq<string>, i: nat, o: seq<Origin>, origins: seq<Origin>)
    requires i < |names| && (forall j | 0 <= j < i :: names[j] != names[i])
    requires o <= origins && Fresh(raw, o)
    requires forall k | |o| <= k < |origins| :: Beyond(raw, Names(names[..i]), origins[k].raw)
    ensures Fresh(raw + [names[i]], origins)
  {
    forall k | 0 <= k < |origins| ensures !(raw + [names[i]] <= origins[k].raw) {
      AlongPath(raw, names[i], origins[k].raw);
      if k < |o| {
        assert o[k] == origins[k];
      } else {
        assert Beyond(raw, Names(names[..i]), origins[k].raw);
        assert names[i] !in names[..i];
      }
    }
  }

  lemma AlongPath(raw: Path, name: string, q: Path)
    ensures raw + [name] <= q ==> raw <= q && |raw| < |q| && q[|raw|] == name
  {
    if raw + [name] <= q {
      assert q[|raw|] == (raw + [name])[|raw|];
    }
  }

  /** The reason a failed open is reported with. */
  function ClassifyOpen(failure: Opened): Reason {
    if failure.LinkRejected? then ArtifactSymlinkRejected else ArtifactInaccessible
  }

  class Walker {
    const w: World
    const lib: Library
    const limits: Limits
    const root: Id
    var entries: seq<TreeEntry>
    var snapshots: seq<Pinned>
    var seen: map<string, string>
    var totalBytes: int64
    var entrypointIdentity: Option<Id>
    /** For the i-th entry, the file it was read from. */
    ghost var origins: seq<Origin>
    /** The instant and fault count at which the digest began. */
    ghost const start: nat
    ghost const faultsBefore: nat

    constructor (w: World, lib: Library, limits: Limits, root: Id, rootState: FileState)
      requires limits.maxBytes >= 0
      ensures this.w == w && this.lib == lib && this.limits == limits && this.root == root
      ensures start == w.now && faultsBefore == w.faults
      ensures Valid() && entries == [] && origins == [] && snapshots == [Pinned([], rootState)]
    {
      this.w, this.lib, this.limits, this.root := w, lib, limits, root;
      entries, origins, snapshots := [], [], [Pinned([], rootState)];
      seen, totalBytes, entrypointIdentity := map[], 0, None;
      start, faultsBefore := w.now, w.faults;
    }

    ghost function Surveyed(): Survey {
      Survey(w.disks, root, lib, limits.selector)
    }

    ghost predicate Valid()
      reads this
    {
      ValidBut({})
    }

    ghost predicate ValidBut(claimed: set<string>)
      reads this
    {
      Books(limits, NormalizeRelative(lib, limits.entrypoint), claimed, seen, entries, origins, totalBytes,
        entrypointIdentity)
    }

    // ----- The undisturbed case -------------------------------------------------------

    /** The disk at the start. */
    ghost function Disk0(): Disk {
      w.disks(start)
    }

    /** No change on the disk and no fault since the start, and the root is a directory. */
    ghost predicate Calm()
      reads w
    {
      w.faults == faultsBefore && Frozen(w.disks, start, w.now) && DirectoryPath(Disk0(), root, [])
    }

    /** In the undisturbed case every record so far is of the tree as it stands. */
    ghost predicate Settled()
      reads this, w
    {
      && w.now >= start && w.faults >= faultsBefore
      && (Calm() ==> AllRecorded(Disk0(), root, lib, limits, origins, entries) &&
                     AllGrounded(Disk0(), root, lib, limits, snapshots))
    }

    /** In the undisturbed case the walk is at `raw`, and no file below has been recorded yet. */
    ghost predicate Placed(raw: Path, id: Id)
      reads this, w
    {
      Calm() ==> Resolve(Disk0(), root, raw) == Some(id) && id in Disk0() && Fresh(raw, origins)
    }

    ghost predicate PlacedIn(raw: Path, directory: Id, name: string)
      reads this, w
    {
      Calm() ==> && Resolve(Disk0(), root, raw) == Some(directory) && directory in Disk0()
                 && Disk0()[directory].kind.Directory? && name in Disk0()[directory].table
                 && Fresh(raw + [name], origins)
    }

    /** Why the walk may stop: somebody interfered, or the tree is not acceptable. */
    ghost predicate Excused(reason: Reason)
      reads w
    {
      Calm() ==> Objection(Disk0(), root, lib, limits, reason)
    }

    /** The name led to the inode, and then the inode showed the state. */
    ghost predicate StillThere(parent: Id, name: string, expected: FileState, first: nat, last: nat) {
      exists found: nat, shown: nat :: first <= found <= shown <= last &&
        Lookup(w.disks(found), parent, name) == Handle(expected.identity) && Shows(w.disks, shown, expected)
    }

    /** The child must still be there, unchanged. */
    method VerifyPinnedChild(parent: Id, name: string, expected: FileState) returns (r: Outcome)
      modifies w
      ensures w.now >= old(w.now) && w.free == old(w.free) && w.faults >= old(w.faults)
      ensures r.Pass? ==> StillThere(parent, name, expected, old(w.now), w.now)
      ensures r.Fail? && w.faults == old(w.faults) ==>
                exists t: nat | old(w.now) <= t <= w.now ::
                  Lookup(w.disks(t), parent, name) != Handle(expected.identity) || !Shows(w.disks, t, expected)
    {
      var child := w.OpenChild(parent, name);
      if !child.Handle? {
        return Fail(ArtifactChangedDuringRead);
      }
      ghost var found := w.now;
      var actual := w.Stat(child.id);
      w.Close();
      if actual.None? || FileChanged(expected, actual.value.state) {
        assert !Shows(w.disks, w.now, expected) || w.faults > old(w.faults) ||
               Lookup(w.disks(found), parent, name) != Handle(expected.identity);
        return Fail(ArtifactChangedDuringRead);
      }
      assert Shows(w.disks, w.now, expected);
      return Pass;
    }

    method Append(entry: TreeEntry, pin: Pinned, ghost origin: Origin)
      requires ValidBut({entry.path}) && entry.path in seen
      requires !WouldExceed(|entries|, totalBytes, entry.size, limits.maxFiles, limits.maxBytes)
      requires pin.state.identity == origin.id
      modifies this
      ensures Valid()
      ensures entries == old(entries) + [entry] && origins == old(origins) + [origin]
      ensures snapshots == old(snapshots) + [pin]
    {
      var entrypoint := NormalizeRelative(lib, limits.entrypoint);
      BooksAppend(limits, entrypoint, seen, entries, origins, totalBytes, entrypointIdentity, entry, origin);
      totalBytes := totalBytes + entry.size;
      entries := entries + [entry];
      snapshots := snapshots + [pin];
      origins := origins + [origin];
      if entrypoint.Some? && Slash(entrypoint.value) == entry.path {
        entrypointIdentity := Some(pin.state.identity);
      }
    }

    /** Why a file may not be recorded: its key is taken, or the limits do not allow it. */
    ghost predicate Barred(key: string, size: int64, reason: Reason)
      requires limits.maxBytes >= 0
      reads this
    {
      match reason
      case ArtifactNormalizationCollision => Listed(entries, key)
      case ArtifactScanLimitExceeded => WouldExceed(|entries|, totalBytes, size, limits.maxFiles, limits.maxBytes)
      case _ => false
    }

    /** The limits are tested before the bytes are read. */
    method Claim(key: string, size: int64) returns (r: Outcome)
      requires Valid()
      modifies this`seen
      ensures r.Pass? ==> ValidBut({key}) && key in seen
      ensures r.Pass? ==> !WouldExceed(|entries|, totalBytes, size, limits.maxFiles, limits.maxBytes)
      ensures r.Fail? ==> Barred(key, size, r.reason)
    {
      if key in seen {
        return Fail(ArtifactNormalizationCollision);
      }
      seen := seen[key := key];
      if WouldExceed(|entries|, totalBytes, size, limits.maxFiles, limits.maxBytes) {
        return Fail(ArtifactScanLimitExceeded);
      }
      return Pass;
    }

    /** The bytes of an opened child, which must be unchanged in its directory afterwards. */
    method HashChild(directory: Id, name: string, child: Id, maxBytes: int64)
      returns (r: Result<Digested, ScanReason>, ghost shown: nat)
      requires LawfulDisks(w.disks) && maxBytes >= 0
      modifies w
      ensures old(w.now) <= shown <= w.now && w.free == old(w.free) + 1 && w.faults >= old(w.faults)
      ensures r.Ok? ==> child in w.disks(shown) &&
                        DigestOf(w.disks(shown), lib, child, w.disks(shown)[child].content, r.value)
      ensures r.Ok? ==> r.value.size <= maxBytes
      ensures r.Err? && w.faults == old(w.faults) && Frozen(w.disks, old(w.now), w.now) ==>
                var disk := w.disks(old(w.now));
                || Lookup(disk, directory, name) != Handle(child)
                || child !in disk || !disk[child].kind.Regular? || disk[child].size > maxBytes
    {
      ghost var began := w.now;
      var digest, hashed := DigestOpenedFile(w, lib, child, maxBytes);
      shown := w.now;
      w.Close();
      if digest.Err? {
        FrozenIsSteady(w.disks, child, began, w.now);
        return Err(digest.error), shown;
      }
      var again := VerifyPinnedChild(directory, name, digest.value.state);
      if again.Fail? {
        return Err(again.reason), shown;
      }
      r := Ok(digest.value);
    }

    /** Check for cancellation, open one entry without following links, and stat it. */
    method Enter(directory: Id, name: string) returns (r: Result<FileInfo, ScanReason>, ghost entered: nat)
      modifies w
      ensures old(w.now) <= entered <= w.now && w.faults >= old(w.faults)
      ensures r.Ok? ==> old(w.free) > 0 && w.free == old(w.free) - 1
      ensures r.Ok? ==> var id := r.value.state.identity;
                && Lookup(w.disks(entered), directory, name) == Handle(id) && id in w.disks(w.now)
                && r.value == FileInfo(w.disks(w.now)[id].kind, StateOf(id, w.disks(w.now)[id]))
      ensures r.Err? ==> w.free == old(w.free)
      ensures r.Err? && w.faults == old(w.faults) && Frozen(w.disks, old(w.now), w.now) ==>
                !Lookup(w.disks(old(w.now)), directory, name).Handle? &&
                r.error == ClassifyOpen(Lookup(w.disks(old(w.now)), directory, name))
    {
      entered := w.now;
      var active := CheckActive(w);
      if active.Fail? {
        return Err(active.reason), entered;
      }
      var child := w.OpenChild(directory, name);
      entered := w.now;
      if !child.Handle? {
        return Err(ClassifyOpen(child)), entered;
      }
      var info := w.Stat(child.id);
      if info.None? {
        w.Close();
        return Err(ArtifactInaccessible), entered;
      }
      r := Ok(info.value);
    }

    /** One selected regular file: collision key, budget, bytes, and the record for the second pass. */
    method Record(directory: Id, name: string, child: Id, size: int64, normalized: Path, ghost raw: Path,
                  ghost since: nat, ghost entered: nat)
      returns (r: Outcome)
      requires LawfulDisks(w.disks) && LawfulLibrary(lib) && Valid() && Settled()
      requires PlacedIn(raw, directory, name) && Placed(raw + [name], child)
      requires Calm() ==> Lookup(Disk0(), directory, name) == Handle(child) &&
                          Disk0()[child].kind.Regular? && Disk0()[child].size == size
      requires since <= entered <= w.now && Lookup(w.disks(entered), directory, name) == Handle(child)
      requires normalized == Normal(lib, raw + [name]) && Selected(lib, limits.selector, normalized)
      modifies this, w
      ensures w.now >= old(w.now) && w.free == old(w.free) + 1 && w.faults >= old(w.faults)
      ensures r.Pass? ==> Valid() && Settled() && Recordings(old(w.now), old(origins), old(entries), old(snapshots),
                                                             raw, directory, name, since)
      ensures r.Fail? ==> Excused(r.reason)
    {
      hide LawfulDisks, LawfulLibrary, AllRecorded, AllGrounded, Objection, Delivers, Recorded, Recordings, Resolve,
        Barred;
      var key := Slash(normalized);
      var claimed := Claim(key, size);
      if claimed.Fail? {
        if Calm() {
          Refused(raw + [name], child, key, size, claimed.reason);
        }
        w.Close();
        r := claimed;
      } else {
        r := Admit(directory, name, child, size, normalized, raw, since, entered);
      }
    }

    /** The file claimed: its bytes, and the record. */
    method Admit(directory: Id, name: string, child: Id, size: int64, normalized: Path, ghost raw: Path,
                 ghost since: nat, ghost entered: nat)
      returns (r: Outcome)
      requires LawfulDisks(w.disks) && ValidBut({Slash(normalized)}) && Slash(normalized) in seen && Settled()
      requires !WouldExceed(|entries|, totalBytes, size, limits.maxFiles, limits.maxBytes)
      requires PlacedIn(raw, directory, name) && Placed(raw + [name], child)
      requires Calm() ==> Lookup(Disk0(), directory, name) == Handle(child) &&
                          Disk0()[child].kind.Regular? && Disk0()[child].size == size
      requires since <= entered <= w.now && Lookup(w.disks(entered), directory, name) == Handle(child)
      requires normalized == Normal(lib, raw + [name]) && Selected(lib, limits.selector, normalized)
      modifies this, w
      ensures w.now >= old(w.now) && w.free == old(w.free) + 1 && w.faults >= old(w.faults)
      ensures r.Pass? ==> Valid() && Settled() && Recordings(old(w.now), old(origins), old(entries), old(snapshots),
                                                             raw, directory, name, since)
      ensures r.Fail? ==> Excused(r.reason)
    {
      hide LawfulDisks, AllRecorded, AllGrounded, Objection, Delivers, Recorded, Recordings, Resolve;
      ghost var q, o, e, p := raw + [name], origins, entries, snapshots;
      var digest;
      ghost var shown;
      digest, shown := HashChild(directory, name, child, limits.maxBytes - totalBytes);
      if digest.Err? {
        return Fail(digest.error);
      }
      if Calm() {
        RecordOne(Disk0(), root, lib, limits, origins, entries, snapshots, q, child);
      }
      Append(TreeEntry(Slash(normalized), digest.value.sha256, digest.value.size),
        Pinned(normalized, digest.value.state), Origin(q, child));
      Appended(raw, directory, name, child, since, entered, shown, old(w.now), o, e, p);
      r := Pass;
    }

    lemma {:induction false} Appended(raw: Path, directory: Id, name: string, child: Id, since: nat, entered: nat,
                                      shown: nat, began: nat, o: seq<Origin>, e: seq<TreeEntry>, p: seq<Pinned>)
      requires LawfulDisks(w.disks) && since <= entered <= shown <= w.now && began <= shown
      requires Lookup(w.disks(entered), directory, name) == Handle(child)
      requires child in w.disks(shown) && w.disks(shown)[child].kind.Regular?
      requires Selected(lib, limits.selector, Normal(lib, raw + [name]))
      requires origins == o + [Origin(raw + [name], child)]
      requires entries == e + [EntryFor(lib, raw + [name], w.disks(shown)[child])]
      requires snapshots == p + [Pinned(Normal(lib, raw + [name]), StateOf(child, w.disks(shown)[child]))]
      ensures Recordings(began, o, e, p, raw, directory, name, since)
    {
      var node := w.disks(shown)[child];
      var q := raw + [name];
      assert Shows(w.disks, shown, StateOf(child, node));
      DeliversFile(Surveyed(), raw, directory, name, child, node, since, entered, shown, w.now);
      NewTails(o, [Origin(q, child)], e, [EntryFor(lib, q, node)], p, [Pinned(Normal(lib, q), StateOf(child, node))]);
    }

    lemma {:induction false} Refused(q: Path, child: Id, key: string, size: int64, reason: Reason)
      requires LawfulDisks(w.disks) && LawfulLibrary(lib) && limits.maxBytes >= 0
      requires AllRecorded(Disk0(), root, lib, limits, origins, entries) && DistinctPaths(entries)
      requires totalBytes as int == TotalSize(entries)
      requires SelectedFile(Disk0(), root, lib, limits, q) && Resolve(Disk0(), root, q) == Some(child)
      requires child in Disk0() && Disk0()[child].size == size && Fresh(q, origins) && key == Slash(Normal(lib, q))
      requires Barred(key, size, reason)
      ensures Objection(Disk0(), root, lib, limits, reason)
    {
      assert WellFormedAt(w.disks, start);
      if reason == ArtifactNormalizationCollision {
        var e :| e in entries && e.path == key;
        var i :| 0 <= i < |entries| && entries[i] == e;
        Collides(Disk0(), root, lib, limits, origins, entries, i, q);
      } else {
        TooMuch(Disk0(), root, lib, limits, origins, entries, q);
      }
    }

    /** One directory entry: the body of the walk's loop. */
    method Visit(directory: Id, name: string, prefix: Path, ghost raw: Path, ghost since: nat) returns (r: Outcome)
      requires LawfulDisks(w.disks) && LawfulLibrary(lib) && Valid() && since <= w.now && prefix == Normal(lib, raw)
      requires Settled() && PlacedIn(raw, directory, name)
      modifies this, w
      decreases w.free, 0
      ensures w.now >= old(w.now) && w.free == old(w.free) && w.faults >= old(w.faults)
      ensures r.Pass? ==> Valid() && Settled() && Recordings(old(w.now), old(origins), old(entries), old(snapshots),
                                                             raw, directory, name, since)
      ensures r.Fail? ==> Excused(r.reason)
    {
      hide LawfulDisks, LawfulLibrary, Books, AllRecorded, AllGrounded, Objection, Delivers, Resolve;
      ghost var began := w.now;
      var info;
      ghost var entered;
      info, entered := Enter(directory, name);
      if Calm() {
        Inside(raw, directory, name, info);
      }
      if info.Err? {
        return Fail(info.error);
      }
      var child := info.value.state.identity;
      var normalized := NormalizeRelative(lib, prefix + [name]);
      if normalized.None? {
        w.Close();
        return Fail(ArtifactPathEscape);
      }
      NormalStep(lib, raw, name);
      if info.value.kind.Directory? {
        r := VisitDirectory(directory, name, child, normalized.value, raw, since, entered);
        return;
      }
      if !info.value.kind.Regular? {
        w.Close();
        return Fail(ArtifactUnsupportedType);
      }
      ghost var shown := w.now;
      var included := Includes(lib, limits.selector, normalized.value);
      if !included {
        w.Close();
        Skip(raw, directory, name, child, since, entered, shown, began);
        return Pass;
      }
      r := Record(directory, name, child, info.value.state.size, normalized.value, raw, since, entered);
    }

    /** What the undisturbed case knows after one entry was looked at. */
    lemma {:induction false} Inside(raw: Path, directory: Id, name: string, info: Result<FileInfo, ScanReason>)
      requires LawfulDisks(w.disks) && LawfulLibrary(lib) && start <= w.now && Calm() && PlacedIn(raw, directory, name)
      requires info.Err? ==> !Lookup(Disk0(), directory, name).Handle? &&
                             info.error == ClassifyOpen(Lookup(Disk0(), directory, name))
      requires info.Ok? ==> var id := info.value.state.identity;
                 && Lookup(Disk0(), directory, name) == Handle(id) && id in w.disks(w.now)
                 && info.value == FileInfo(w.disks(w.now)[id].kind, StateOf(id, w.disks(w.now)[id]))
      ensures NormalizeRelative(lib, Normal(lib, raw) + [name]).Some?
      ensures info.Err? ==> Objection(Disk0(), root, lib, limits, info.error)
      ensures info.Ok? ==> Placed(raw + [name], info.value.state.identity) &&
                           Lookup(Disk0(), directory, name) == Handle(info.value.state.identity) &&
                           info.value.kind == Disk0()[info.value.state.identity].kind &&
                           info.value.state == StateOf(info.value.state.identity, Disk0()[info.value.state.identity])
      ensures info.Ok? && !info.value.kind.Directory? && !info.value.kind.Regular? ==>
                Objection(Disk0(), root, lib, limits, ArtifactUnsupportedType)
    {
      assert WellFormedAt(w.disks, start) && w.disks(w.now) == Disk0();
      NormalNames(Disk0(), root, lib, raw);
      assert EntryName(name);
      var id := Disk0()[directory].table[name];
      assert id in Disk0();
      ResolveStep(Disk0(), root, raw, directory, name);
      if !Lookup(Disk0(), directory, name).Handle? || (!Disk0()[id].kind.Directory? && !Disk0()[id].kind.Regular?) {
        NotOrdinary(Disk0(), root, lib, limits, raw, directory, name);
      }
    }

    /** A child directory: its state is noted before the walk below it, and checked again after. */
    method VisitDirectory(directory: Id, name: string, child: Id, normalized: Path, ghost raw: Path, ghost since: nat,
                          ghost entered: nat)
      returns (r: Outcome)
      requires LawfulDisks(w.disks) && LawfulLibrary(lib) && Valid() && Settled() && Placed(raw + [name], child)
      requires since <= entered <= w.now && Lookup(w.disks(entered), directory, name) == Handle(child)
      requires Calm() ==> Lookup(Disk0(), directory, name) == Handle(child) && Disk0()[child].kind.Directory?
      requires normalized == Normal(lib, raw + [name])
      modifies this, w
      decreases w.free, 4
      ensures w.now >= old(w.now) && w.free == old(w.free) + 1 && w.faults >= old(w.faults)
      ensures r.Pass? ==> Valid() && Settled() && Recordings(old(w.now), old(origins), old(entries), old(snapshots),
                                                             raw, directory, name, since)
      ensures r.Fail? ==> Excused(r.reason)
    {
      hide LawfulDisks, LawfulLibrary, Books, AllRecorded, AllGrounded, Objection, Delivers, DeliversAll, Resolve;
      ghost var began, o, e, p := w.now, origins, entries, snapshots;
      var state;
      ghost var shown;
      state, shown := Descend(child, normalized, raw + [name]);
      if state.Err? {
        r := Fail(state.error);
      } else {
        ghost var walked := w.now;
        r := VerifyPinnedChild(directory, name, state.value);
        if r.Pass? {
          Extend(raw, directory, name, child, state.value, since, entered, shown, walked, began, o, e, p);
        }
      }
    }

    /** Notes a child directory's state, walks it, and closes it. */
    method Descend(child: Id, normalized: Path, ghost here: Path)
      returns (r: Result<FileState, ScanReason>, ghost shown: nat)
      requires LawfulDisks(w.disks) && LawfulLibrary(lib) && Valid() && Settled() && Placed(here, child)
      requires Calm() ==> Disk0()[child].kind.Directory?
      requires normalized == Normal(lib, here)
      modifies this, w
      decreases w.free, 3
      ensures old(w.now) <= shown <= w.now && w.free == old(w.free) + 1 && w.faults >= old(w.faults)
      ensures r.Ok? ==> Valid() && Settled() && old(origins) <= origins && old(entries) <= entries &&
                        old(snapshots) < snapshots
      ensures r.Ok? ==> snapshots[|old(snapshots)|] == Pinned(normalized, r.value)
      ensures r.Ok? ==> Shows(w.disks, shown, r.value) && r.value.identity == child
      ensures r.Ok? ==> Observed(w.disks, shown, w.now, snapshots[|old(snapshots)| + 1..])
      ensures r.Ok? ==> forall k | |old(origins)| <= k < |origins| :: here < origins[k].raw
      ensures r.Ok? ==> DeliversAll(Surveyed(), here, child, shown, w.now,
                                    origins[|old(origins)|..], entries[|old(entries)|..],
                                    snapshots[|old(snapshots)| + 1..])
      ensures r.Err? ==> Excused(r.error)
    {
      hide LawfulDisks, LawfulLibrary, Books, AllRecorded, AllGrounded, Objection, DeliversAll, Resolve, Fresh;
      r, shown := Note(child, normalized, here);
      if r.Ok? {
        var walked := WalkPinnedDirectory(child, normalized, here);
        if walked.Fail? {
          r := Err(walked.reason);
        }
      }
      w.Close();
    }

    /** Records the state of a child directory. */
    method Note(child: Id, normalized: Path, ghost here: Path)
      returns (r: Result<FileState, ScanReason>, ghost shown: nat)
      requires Valid() && Settled() && Placed(here, child) && normalized == Normal(lib, here)
      requires Calm() ==> Disk0()[child].kind.Directory?
      modifies this`snapshots, w
      ensures old(w.now) <= shown == w.now && w.free == old(w.free) && w.faults >= old(w.faults)
      ensures r.Ok? ==> Settled() && snapshots == old(snapshots) + [Pinned(normalized, r.value)]
      ensures r.Ok? ==> Shows(w.disks, shown, r.value) && r.value.identity == child
      ensures Calm() ==> r.Ok?
    {
      var state := w.Stat(child);
      shown := w.now;
      if state.None? {
        r := Err(ArtifactInaccessible);
      } else {
        if Calm() {
          GroundDirectory(Disk0(), root, lib, limits, snapshots, here, child);
        }
        snapshots := snapshots + [Pinned(normalized, state.value.state)];
        r := Ok(state.value.state);
      }
    }

    method WalkPinnedDirectory(directory: Id, prefix: Path, ghost raw: Path) returns (r: Outcome)
      requires LawfulDisks(w.disks) && LawfulLibrary(lib) && Valid() && prefix == Normal(lib, raw)
      requires Settled() && Placed(raw, directory) && (Calm() ==> Disk0()[directory].kind.Directory?)
      modifies this, w
      decreases w.free, 2
      ensures w.now >= old(w.now) && w.free == old(w.free) && w.faults >= old(w.faults)
      ensures r.Pass? ==> Valid() && Settled() && Grown(old(w.now), old(origins), old(entries), old(snapshots))
      ensures r.Pass? ==> forall k | |old(origins)| <= k < |origins| :: raw < origins[k].raw
      ensures r.Pass? ==> DeliversAll(Surveyed(), raw, directory, old(w.now), w.now,
                                      origins[|old(origins)|..], entries[|old(entries)|..],
                                      snapshots[|old(snapshots)|..])
      ensures r.Fail? ==> Excused(r.reason)
    {
      hide LawfulDisks, LawfulLibrary, Books, AllRecorded, AllGrounded, Objection, Delivers, DeliversAll, Resolve,
        Fresh;
      ghost var since, o, e, p := w.now, origins, entries, snapshots;
      var before := w.Stat(directory);
      if before.None? {
        return Fail(ArtifactInaccessible);
      }
      ghost var listing := w.now;
      var children := w.ReadDir(directory);
      if children.None? {
        return Fail(ArtifactInaccessible);
      }
      ghost var listed := w.now;
      FrozenIsSteady(w.disks, directory, listing, listed);
      r := VisitAll(directory, children.value, prefix, raw, since);
      if r.Fail? {
        return;
      }
      ghost var done := w.now;
      var after := w.Stat(directory);
      if after.None? || FileChanged(before.value.state, after.value.state) {
        return Fail(ArtifactChangedDuringRead);
      }
      Later(raw, directory, children.value, since, done, o, e, p);
      DeliversListing(Surveyed(), raw, directory, children.value, since, listing, listed, w.now,
                      origins[|o|..], entries[|e|..], snapshots[|p|..]);
    }

    method VisitAll(directory: Id, names: seq<string>, prefix: Path, ghost raw: Path, ghost since: nat)
      returns (r: Outcome)
      requires LawfulDisks(w.disks) && LawfulLibrary(lib) && Valid() && prefix == Normal(lib, raw) && since <= w.now
      requires Settled() && Placed(raw, directory)
      requires Calm() ==> Disk0()[directory].kind.Directory? && ListsExactly(names, Disk0()[directory].table)
      modifies this, w
      decreases w.free, 1
      ensures w.now >= old(w.now) && w.free == old(w.free) && w.faults >= old(w.faults)
      ensures r.Pass? ==> Valid() && Settled() && Grown(old(w.now), old(origins), old(entries), old(snapshots))
      ensures r.Pass? ==> forall k | |old(origins)| <= k < |origins| :: Beyond(raw, Names(names), origins[k].raw)
      ensures r.Pass? ==> Delivers(Surveyed(), raw, directory, Names(names), since, w.now,
                                   origins[|old(origins)|..], entries[|old(entries)|..], snapshots[|old(snapshots)|..])
      ensures r.Fail? ==> Excused(r.reason)
    {
      hide LawfulDisks, LawfulLibrary, Books, AllRecorded, AllGrounded, Objection, Delivers, Resolve;
      ghost var began, o, e, p := w.now, origins, entries, snapshots;
      DeliversNothing(Surveyed(), raw, directory, since, w.now);
      assert Names(names[..0]) == {} && origins[|o|..] == [] && entries[|e|..] == [] && snapshots[|p|..] == [];
      var i := 0;
      while i < |names|
        invariant 0 <= i <= |names|
        invariant w.now >= old(w.now) && w.free == old(w.free) && w.faults >= old(w.faults)
        invariant Valid() && Settled() && Grown(began, o, e, p)
        invariant forall k | |o| <= k < |origins| :: Beyond(raw, Names(names[..i]), origins[k].raw)
        invariant Delivers(Surveyed(), raw, directory, Names(names[..i]), since, w.now,
                           origins[|o|..], entries[|e|..], snapshots[|p|..])
      {
        ghost var upto, o1, e1, p1 := w.now, origins, entries, snapshots;
        if Calm() {
          StillFresh(raw, names, i, o, origins);
        }
        r := Visit(directory, names[i], prefix, raw, since);
        if r.Fail? {
          return;
        }
        Accumulate(raw, directory, since, names, i, upto, began, o, e, p, o1, e1, p1);
        i := i + 1;
      }
      assert names[..i] == names;
      r := Pass;
    }

    /** The lists grew, and the new records are observations. */
    ghost predicate Grown(began: nat, o: seq<Origin>, e: seq<TreeEntry>, p: seq<Pinned>)
      reads this, w
    {
      o <= origins && e <= entries && p <= snapshots && Observed(w.disks, began, w.now, snapshots[|p|..])
    }

    /** They also deliver this child. */
    ghost predicate Recordings(began: nat, o: seq<Origin>, e: seq<TreeEntry>, p: seq<Pinned>, raw: Path, directory: Id,
                               name: string, since: nat)
      reads this, w
    {
      && Grown(began, o, e, p)
      && (forall k | |o| <= k < |origins| :: Beyond(raw, {name}, origins[k].raw))
      && Delivers(Surveyed(), raw, directory, {name}, since, w.now, origins[|o|..], entries[|e|..], snapshots[|p|..])
    }

    lemma {:induction false} Skip(raw: Path, directory: Id, name: string, child: Id, since: nat, entered: nat,
                                  shown: nat, began: nat)
      requires LawfulDisks(w.disks) && since <= entered <= shown <= w.now
      requires Lookup(w.disks(entered), directory, name) == Handle(child)
      requires child in w.disks(shown) && w.disks(shown)[child].kind.Regular?
      requires !Selected(lib, limits.selector, Normal(lib, raw + [name]))
      ensures Recordings(began, origins, entries, snapshots, raw, directory, name, since)
    {
      DeliversIgnored(Surveyed(), raw, directory, name, child, since, entered, shown, w.now);
    }

    lemma {:induction false} Extend(raw: Path, directory: Id, name: string, child: Id, state: FileState, since: nat,
                                    entered: nat, shown: nat, walked: nat, began: nat, o: seq<Origin>,
                                    e: seq<TreeEntry>, p: seq<Pinned>)
      requires LawfulDisks(w.disks) && since <= entered <= shown <= walked <= w.now && began <= shown
      requires Lookup(w.disks(entered), directory, name) == Handle(child)
      requires Shows(w.disks, shown, state) && state.identity == child
      requires forall k | |o| <= k < |origins| :: raw + [name] < origins[k].raw
      requires o <= origins && e <= entries && p < snapshots &&
               snapshots[|p|] == Pinned(Normal(lib, raw + [name]), state)
      requires Observed(w.disks, shown, walked, snapshots[|p| + 1..])
      requires DeliversAll(Surveyed(), raw + [name], child, shown, walked,
                           origins[|o|..], entries[|e|..], snapshots[|p| + 1..])
      ensures Recordings(began, o, e, p, raw, directory, name, since)
    {
      DeliversDirectory(Surveyed(), raw, directory, name, child, state, since, entered, shown, shown, walked,
                        origins[|o|..], entries[|e|..], snapshots[|p| + 1..]);
      assert snapshots[|p|..] == [snapshots[|p|]] + snapshots[|p| + 1..];
      forall t: nat | Undisturbed(Surveyed(), raw, directory, since, w.now, snapshots[|p|..], t)
        ensures Undisturbed(Surveyed(), raw, directory, since, walked, snapshots[|p|..], t)
      {
      }
      forall k | |o| <= k < |origins| ensures Beyond(raw, {name}, origins[k].raw) {
        var here := origins[k].raw[..|raw + [name]|];
        assert here == raw + [name] && here[..|raw|] == raw && here[|raw|] == name;
      }
      forall pin | pin in snapshots[|p|..] ensures SeenBy(w.disks, began, w.now, pin.state) {
        if pin in snapshots[|p| + 1..] {
          assert SeenBy(w.disks, shown, walked, pin.state);
        }
      }
    }

    lemma {:induction false} Accumulate(raw: Path, directory: Id, since: nat, names: seq<string>, i: nat, upto: nat,
                                        began: nat, o: seq<Origin>, e: seq<TreeEntry>, p: seq<Pinned>, o1: seq<Origin>,
                                        e1: seq<TreeEntry>, p1: seq<Pinned>)
      requires i < |names| && began <= upto <= w.now && o <= o1 && e <= e1 && p <= p1
      requires Observed(w.disks, began, upto, p1[|p|..])
      requires forall k | |o| <= k < |o1| :: Beyond(raw, Names(names[..i]), o1[k].raw)
      requires Delivers(Surveyed(), raw, directory, Names(names[..i]), since, upto, o1[|o|..], e1[|e|..], p1[|p|..])
      requires Recordings(upto, o1, e1, p1, raw, directory, names[i], since)
      ensures Grown(began, o, e, p)
      ensures forall k | |o| <= k < |origins| :: Beyond(raw, Names(names[..i + 1]), origins[k].raw)
      ensures Delivers(Surveyed(), raw, directory, Names(names[..i + 1]), since, w.now,
                       origins[|o|..], entries[|e|..], snapshots[|p|..])
    {
      DeliversUnion(Surveyed(), raw, directory, since,
                    Names(names[..i]), upto, o1[|o|..], e1[|e|..], p1[|p|..],
                    {names[i]}, w.now, origins[|o1|..], entries[|e1|..], snapshots[|p1|..]);
      assert Names(names[..i + 1]) == Names(names[..i]) + {names[i]};
      assert origins[|o|..] == o1[|o|..] + origins[|o1|..];
      assert entries[|e|..] == e1[|e|..] + entries[|e1|..];
      assert snapshots[|p|..] == p1[|p|..] + snapshots[|p1|..];
    }

    lemma {:induction false} Later(raw: Path, directory: Id, names: seq<string>, since: nat, upto: nat, o: seq<Origin>,
                                   e: seq<TreeEntry>, p: seq<Pinned>)
      requires upto <= w.now && o <= origins && e <= entries && p <= snapshots
      requires Delivers(Surveyed(), raw, directory, Names(names), since, upto,
                        origins[|o|..], entries[|e|..], snapshots[|p|..])
      ensures Delivers(Surveyed(), raw, directory, Names(names), since, w.now,
                       origins[|o|..], entries[|e|..], snapshots[|p|..])
    {
      forall t: nat | Undisturbed(Surveyed(), raw, directory, since, w.now, snapshots[|p|..], t)
        ensures Undisturbed(Surveyed(), raw, directory, since, upto, snapshots[|p|..], t)
      {
      }
    }
  }

  function Names(names: seq<string>): set<string> {
    set n | n in names
  }

  lemma FrozenIsSteady(run: nat -> Disk, id: Id, first: nat, last: nat)
    requires first <= last
    ensures Frozen(run, first, last) && id in run(first) ==> Steady(run, id, first, last)
  {
    if Frozen(run, first, last) && id in run(first) {
      assert forall t: nat {:trigger run(t)} | first <= t <= last :: run(t) == run(first);
    }
  }

  lemma NormalStep(lib: Library, raw: Path, name: string)
    requires LawfulLibrary(lib)
    ensures Normal(lib, Normal(lib, raw) + [name]) == Normal(lib, raw + [name])
  {
    forall i | 0 <= i < |raw| ensures lib.nfc(lib.nfc(raw[i])) == lib.nfc(raw[i]) {
      assert TamelyNormal(lib, raw[i]);
    }
  }

  lemma NewTails<A, B, C>(a: seq<A>, a': seq<A>, b: seq<B>, b': seq<B>, c: seq<C>, c': seq<C>)
    ensures (a + a')[|a|..] == a' && (b + b')[|b|..] == b' && (c + c')[|c|..] == c'
  {
  }
}
