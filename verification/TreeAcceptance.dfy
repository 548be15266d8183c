/** Which trees the walk accepts when nobody interferes. */
module TreeAcceptance {
  import opened Basics
  import opened Decisions
  import opened Kernel
  import opened Selection
  import opened TreeSpec

  datatype Limits = Limits(selector: Selector, maxFiles: nat, maxBytes: int64, entrypoint: Path)

  ghost predicate SelectedFile(disk: Disk, root: Id, lib: Library, limits: Limits, q: Path) {
    match Resolve(disk, root, q)
    case None => false
    case Some(id) => id in disk && disk[id].kind.Regular? && Selected(lib, limits.selector, Normal(lib, q))
  }

  ghost predicate DirectoryPath(disk: Disk, root: Id, q: Path) {
    match Resolve(disk, root, q)
    case None => false
    case Some(id) => id in disk && disk[id].kind.Directory?
  }

  /** A link or special file. */
  ghost predicate Irregular(disk: Disk, root: Id, q: Path) {
    match Resolve(disk, root, q)
    case None => false
    case Some(id) => id in disk && !disk[id].kind.Directory? && !disk[id].kind.Regular?
  }

  /** Two selected files whose normalized paths coincide. */
  ghost predicate Clash(disk: Disk, root: Id, lib: Library, limits: Limits, a: Path, b: Path) {
    a != b && SelectedFile(disk, root, lib, limits, a) && SelectedFile(disk, root, lib, limits, b) &&
    Normal(lib, a) == Normal(lib, b)
  }

  predicate Distinct<T(==)>(items: seq<T>) {
    forall i, j | 0 <= i < j < |items| :: items[i] != items[j]
  }

  ghost function SizeAt(disk: Disk, root: Id, q: Path): int {
    match Resolve(disk, root, q)
    case None => 0
    case Some(id) => if id in disk then disk[id].size as int else 0
  }

  ghost function SumSizes(disk: Disk, root: Id, files: seq<Path>): int {
    if files == [] then 0
    else SumSizes(disk, root, files[..|files| - 1]) + SizeAt(disk, root, files[|files| - 1])
  }

  /** Selected files that are too many or too large together. */
  ghost predicate OverBudget(disk: Disk, root: Id, lib: Library, limits: Limits, files: seq<Path>) {
    && Distinct(files) && (forall q | q in files :: SelectedFile(disk, root, lib, limits, q))
    && (|files| > limits.maxFiles || SumSizes(disk, root, files) > limits.maxBytes as int)
  }

  ghost predicate LinkAt(disk: Disk, root: Id, q: Path) {
    Irregular(disk, root, q) && disk[Resolve(disk, root, q).value].kind.Symlink?
  }

  ghost predicate SpecialAt(disk: Disk, root: Id, q: Path) {
    Irregular(disk, root, q) && disk[Resolve(disk, root, q).value].kind.Special?
  }

  /** What the first pass, refusing a tree with this code, says of it. */
  ghost predicate Objection(disk: Disk, root: Id, lib: Library, limits: Limits, reason: Reason) {
    match reason
    case ArtifactSymlinkRejected => exists q :: LinkAt(disk, root, q)
    case ArtifactUnsupportedType => exists q :: SpecialAt(disk, root, q)
    case ArtifactNormalizationCollision => exists a, b :: Clash(disk, root, lib, limits, a, b)
    case ArtifactScanLimitExceeded => exists files :: OverBudget(disk, root, lib, limits, files)
    case _ => false
  }

  /** The recorded path and state belong to a directory or selected file of the tree. */
  ghost predicate Grounded(disk: Disk, root: Id, lib: Library, limits: Limits, q: Path, pin: Pinned) {
    && pin.path == Normal(lib, q) && Resolve(disk, root, q) == Some(pin.state.identity)
    && pin.state.identity in disk && StateOf(pin.state.identity, disk[pin.state.identity]) == pin.state
    && (DirectoryPath(disk, root, q) || SelectedFile(disk, root, lib, limits, q))
  }

  ghost predicate AllGrounded(disk: Disk, root: Id, lib: Library, limits: Limits, pins: seq<Pinned>) {
    forall pin | pin in pins :: exists q :: Grounded(disk, root, lib, limits, q, pin)
  }

  ghost predicate AllRecorded(disk: Disk, root: Id, lib: Library, limits: Limits, origins: seq<Origin>,
                              entries: seq<TreeEntry>) {
    && |origins| == |entries|
    && forall i | 0 <= i < |origins| :: Recorded(disk, root, lib, limits.selector, origins[i], entries[i])
  }

  ghost function Raws(origins: seq<Origin>): (r: seq<Path>)
    ensures |r| == |origins| && forall i | 0 <= i < |r| :: r[i] == origins[i].raw
  {
    seq(|origins|, i requires 0 <= i < |origins| => origins[i].raw)
  }

  function TotalSize(entries: seq<TreeEntry>): int {
    if entries == [] then 0 else TotalSize(entries[..|entries| - 1]) + entries[|entries| - 1].size as int
  }

  ghost predicate DistinctPaths(entries: seq<TreeEntry>) {
    forall i, j | 0 <= i < j < |entries| :: entries[i].path != entries[j].path
  }

  lemma {:induction false} RecordedSizes(disk: Disk, root: Id, lib: Library, limits: Limits, origins: seq<Origin>,
                                         entries: seq<TreeEntry>)
    requires AllRecorded(disk, root, lib, limits, origins, entries)
    ensures TotalSize(entries) == SumSizes(disk, root, Raws(origins))
    decreases |entries|
  {
    if entries != [] {
      var n := |entries| - 1;
      RecordedSizes(disk, root, lib, limits, origins[..n], entries[..n]);
      assert Raws(origins)[..n] == Raws(origins[..n]);
      assert Recorded(disk, root, lib, limits.selector, origins[n], entries[n]);
    }
  }

  /** Distinct recorded paths come from distinct files. */
  lemma {:induction false} RecordedFiles(disk: Disk, root: Id, lib: Library, limits: Limits, origins: seq<Origin>,
                                         entries: seq<TreeEntry>)
    requires AllRecorded(disk, root, lib, limits, origins, entries) && DistinctPaths(entries)
    ensures Distinct(Raws(origins)) && forall q | q in Raws(origins) :: SelectedFile(disk, root, lib, limits, q)
  {
    forall i, j | 0 <= i < j < |origins| ensures Raws(origins)[i] != Raws(origins)[j] {
      assert Recorded(disk, root, lib, limits.selector, origins[i], entries[i]);
      assert Recorded(disk, root, lib, limits.selector, origins[j], entries[j]);
    }
    forall q | q in Raws(origins) ensures SelectedFile(disk, root, lib, limits, q) {
      var i :| 0 <= i < |origins| && Raws(origins)[i] == q;
      assert Recorded(disk, root, lib, limits.selector, origins[i], entries[i]);
    }
  }

  /** One more file than the limits allow is an objection. */
  lemma {:induction false} TooMuch(disk: Disk, root: Id, lib: Library, limits: Limits, origins: seq<Origin>,
                                   entries: seq<TreeEntry>, q: Path)
    requires WellFormed(disk) && limits.maxBytes >= 0
    requires AllRecorded(disk, root, lib, limits, origins, entries) && DistinctPaths(entries)
    requires SelectedFile(disk, root, lib, limits, q) && forall i | 0 <= i < |origins| :: origins[i].raw != q
    requires |entries| + 1 > limits.maxFiles || TotalSize(entries) + SizeAt(disk, root, q) > limits.maxBytes as int
    ensures Objection(disk, root, lib, limits, ArtifactScanLimitExceeded)
  {
    RecordedFiles(disk, root, lib, limits, origins, entries);
    RecordedSizes(disk, root, lib, limits, origins, entries);
    var files := Raws(origins) + [q];
    assert files[..|files| - 1] == Raws(origins);
    assert OverBudget(disk, root, lib, limits, files);
  }

  /** An entry already recorded under this normalized path is a clash. */
  lemma {:induction false} Collides(disk: Disk, root: Id, lib: Library, limits: Limits, origins: seq<Origin>,
                                    entries: seq<TreeEntry>, i: nat, q: Path)
    requires WellFormed(disk) && LawfulLibrary(lib)
    requires AllRecorded(disk, root, lib, limits, origins, entries) && i < |entries| && origins[i].raw != q
    requires SelectedFile(disk, root, lib, limits, q) && entries[i].path == Slash(Normal(lib, q))
    ensures Objection(disk, root, lib, limits, ArtifactNormalizationCollision)
  {
    var a := origins[i].raw;
    assert Recorded(disk, root, lib, limits.selector, origins[i], entries[i]);
    NormalNames(disk, root, lib, a);
    NormalNames(disk, root, lib, q);
    SlashInjective(Normal(lib, a), Normal(lib, q));
    assert Clash(disk, root, lib, limits, a, q);
  }

  /** The segments of a path that leads somewhere are entry names, and so are their normal forms. */
  lemma {:induction false} NormalNames(disk: Disk, root: Id, lib: Library, q: Path)
    requires WellFormed(disk) && LawfulLibrary(lib) && Resolve(disk, root, q).Some?
    ensures forall s | s in Normal(lib, q) :: EntryName(s)
  {
    NamesOf(disk, root, q);
    forall s | s in Normal(lib, q) ensures EntryName(s) {
      var i :| 0 <= i < |q| && Normal(lib, q)[i] == s;
      assert q[i] in q && TamelyNormal(lib, q[i]);
    }
  }

  lemma {:induction false} NamesOf(disk: Disk, root: Id, q: Path)
    requires WellFormed(disk) && Resolve(disk, root, q).Some?
    ensures forall s | s in q :: EntryName(s)
    decreases |q|
  {
    if q != [] {
      var next := disk[root].table[q[0]];
      NamesOf(disk, next, q[1..]);
      assert q == [q[0]] + q[1..];
    }
  }

  lemma {:induction false} RecordOne(disk: Disk, root: Id, lib: Library, limits: Limits, origins: seq<Origin>,
                                     entries: seq<TreeEntry>, pins: seq<Pinned>, q: Path, child: Id)
    requires AllRecorded(disk, root, lib, limits, origins, entries) && AllGrounded(disk, root, lib, limits, pins)
    requires SelectedFile(disk, root, lib, limits, q) && Resolve(disk, root, q) == Some(child) && child in disk
    ensures AllRecorded(disk, root, lib, limits, origins + [Origin(q, child)],
                        entries + [EntryFor(lib, q, disk[child])])
    ensures AllGrounded(disk, root, lib, limits, pins + [Pinned(Normal(lib, q), StateOf(child, disk[child]))])
  {
    var pin := Pinned(Normal(lib, q), StateOf(child, disk[child]));
    assert Grounded(disk, root, lib, limits, q, pin);
    var o, e := origins + [Origin(q, child)], entries + [EntryFor(lib, q, disk[child])];
    forall i | 0 <= i < |o| ensures Recorded(disk, root, lib, limits.selector, o[i], e[i]) {
      if i < |origins| {
        assert Recorded(disk, root, lib, limits.selector, origins[i], entries[i]);
      }
    }
  }

  lemma {:induction false} GroundDirectory(disk: Disk, root: Id, lib: Library, limits: Limits, pins: seq<Pinned>,
                                           q: Path, child: Id)
    requires AllGrounded(disk, root, lib, limits, pins)
    requires DirectoryPath(disk, root, q) && Resolve(disk, root, q) == Some(child) && child in disk
    ensures AllGrounded(disk, root, lib, limits, pins + [Pinned(Normal(lib, q), StateOf(child, disk[child]))])
  {
    assert Grounded(disk, root, lib, limits, q, Pinned(Normal(lib, q), StateOf(child, disk[child])));
  }

  /** A listed name that cannot be opened, or opens to neither file nor directory, is an objection. */
  lemma {:induction false} NotOrdinary(disk: Disk, root: Id, lib: Library, limits: Limits, raw: Path, directory: Id,
                                       name: string)
    requires WellFormed(disk) && Resolve(disk, root, raw) == Some(directory)
    requires directory in disk && disk[directory].kind.Directory? && name in disk[directory].table
    requires var id := disk[directory].table[name];
             !Lookup(disk, directory, name).Handle? || (!disk[id].kind.Directory? && !disk[id].kind.Regular?)
    ensures Lookup(disk, directory, name) == LinkRejected || Lookup(disk, directory, name).Handle?
    ensures Lookup(disk, directory, name).LinkRejected? ==> Objection(disk, root, lib, limits, ArtifactSymlinkRejected)
    ensures Lookup(disk, directory, name).Handle? ==> Objection(disk, root, lib, limits, ArtifactUnsupportedType)
  {
    ResolveStep(disk, root, raw, directory, name);
    if Lookup(disk, directory, name).Handle? {
      assert SpecialAt(disk, root, raw + [name]);
    } else {
      assert LinkAt(disk, root, raw + [name]);
    }
  }

  // ----- The exact acceptance condition ------------------------------------------------

  /** No directory has a second path: the kernel refuses hard links to directories. */
  ghost predicate SinglyLinkedDirectories(disk: Disk, root: Id) {
    forall a, b | DirectoryPath(disk, root, a) && Resolve(disk, root, b) == Resolve(disk, root, a) :: a == b
  }

  ghost predicate InNormalForm(disk: Disk, root: Id, lib: Library, limits: Limits) {
    forall q | DirectoryPath(disk, root, q) || SelectedFile(disk, root, lib, limits, q) :: Normal(lib, q) == q
  }

  /**
    Only directories and regular files; every directory and selected file named
    in normal form; selected files within both limits.
   */
  ghost predicate Acceptable(disk: Disk, root: Id, lib: Library, limits: Limits) {
    && DirectoryPath(disk, root, [])
    && (forall q :: !Irregular(disk, root, q))
    && InNormalForm(disk, root, lib, limits)
    && (forall files :: !OverBudget(disk, root, lib, limits, files))
  }

  /** What a refusal by either pass says of a directory that nobody touched. */
  ghost predicate Refusal(disk: Disk, root: Id, lib: Library, limits: Limits, reason: Reason) {
    if reason == ArtifactChangedDuringRead then !InNormalForm(disk, root, lib, limits)
    else Objection(disk, root, lib, limits, reason)
  }

  lemma {:induction false} ObjectionRefuses(disk: Disk, root: Id, lib: Library, limits: Limits, reason: Reason)
    requires Objection(disk, root, lib, limits, reason)
    ensures !Acceptable(disk, root, lib, limits)
  {
    if a, b :| Clash(disk, root, lib, limits, a, b) {
      assert Normal(lib, a) != a || Normal(lib, b) != b;
    }
  }

  lemma {:induction false} SublistSum(disk: Disk, root: Id, files: seq<Path>, all: seq<Path>)
    requires Distinct(files) && forall q | q in files :: q in all
    requires forall q | q in all :: SizeAt(disk, root, q) >= 0
    ensures |files| <= |all| && SumSizes(disk, root, files) <= SumSizes(disk, root, all)
    decreases |files|
  {
    if files == [] {
      SumNonNegative(disk, root, all);
    } else {
      var n := |files| - 1;
      var q := files[n];
      assert q in files;
      var k :| 0 <= k < |all| && all[k] == q;
      var rest := all[..k] + all[k + 1..];
      forall x | x in files[..n] ensures x in rest {
        assert x in files;
        InRest(all, k, x);
      }
      SublistSum(disk, root, files[..n], rest);
      SumWithout(disk, root, all, k);
    }
  }

  lemma InRest(all: seq<Path>, k: nat, x: Path)
    requires k < |all| && x in all && x != all[k]
    ensures x in all[..k] + all[k + 1..]
  {
    var j :| 0 <= j < |all| && all[j] == x;
    assert (all[..k] + all[k + 1..])[if j < k then j else j - 1] == x;
  }

  lemma {:induction false} SumWithout(disk: Disk, root: Id, all: seq<Path>, k: nat)
    requires k < |all|
    ensures SumSizes(disk, root, all) == SumSizes(disk, root, all[..k] + all[k + 1..]) + SizeAt(disk, root, all[k])
  {
    SumSplit(disk, root, all[..k], all[k + 1..]);
    SumSplit(disk, root, all[..k] + [all[k]], all[k + 1..]);
    assert (all[..k] + [all[k]])[..k] == all[..k];
    assert all == all[..k] + [all[k]] + all[k + 1..];
  }

  lemma {:induction false} SumNonNegative(disk: Disk, root: Id, files: seq<Path>)
    requires forall q | q in files :: SizeAt(disk, root, q) >= 0
    ensures SumSizes(disk, root, files) >= 0
  {
    if files != [] {
      SumNonNegative(disk, root, files[..|files| - 1]);
    }
  }

  lemma {:induction false} SumSplit(disk: Disk, root: Id, a: seq<Path>, b: seq<Path>)
    ensures SumSizes(disk, root, a + b) == SumSizes(disk, root, a) + SumSizes(disk, root, b)
    decreases |b|
  {
    if b == [] {
      assert a + b == a;
    } else {
      assert (a + b)[..|a + b| - 1] == a + b[..|b| - 1];
      SumSplit(disk, root, a, b[..|b| - 1]);
    }
  }

  /** A path that cannot be opened without following links leads to no file or directory. */
  lemma {:induction false} BlockedPath(disk: Disk, root: Id, path: Path, i: nat, current: Id)
    requires WellFormed(disk) && i < |path| && Resolve(disk, root, path[..i]) == Some(current)
    requires !Lookup(disk, current, path[i]).Handle?
    ensures Resolve(disk, root, path).None? || Irregular(disk, root, path)
  {
    assert path == path[..i] + path[i..];
    ResolveSplit(disk, root, path[..i], path[i..]);
    if Resolve(disk, root, path).Some? {
      var next := disk[current].table[path[i]];
      assert next in disk;
      assert path[i..][1..] == path[i + 1..];
    }
  }

  lemma NormalTwice(lib: Library, q: Path)
    requires LawfulLibrary(lib)
    ensures Normal(lib, Normal(lib, q)) == Normal(lib, q)
  {
    forall i | 0 <= i < |q| ensures lib.nfc(lib.nfc(q[i])) == lib.nfc(q[i]) {
      assert TamelyNormal(lib, q[i]);
    }
  }

  ghost predicate AllLead(disk: Disk, root: Id, pins: seq<Pinned>) {
    forall p | p in pins :: Resolve(disk, root, p.path) == Some(p.state.identity)
  }

  /** When both passes succeed on a disk that stands still, every name on it was in normal form. */
  lemma {:induction false} SuccessIsNormal(disk: Disk, root: Id, lib: Library, limits: Limits, pins: seq<Pinned>,
                                           origins: seq<Origin>, entries: seq<TreeEntry>, q: Path)
    requires WellFormed(disk) && LawfulLibrary(lib) && root in disk && disk[root].kind.Directory?
    requires Covered(disk, root, lib, limits.selector, [], disk[root].table.Keys, origins, entries, pins)
    requires DistinctPaths(entries) && AllLead(disk, root, pins) && SinglyLinkedDirectories(disk, root)
    requires DirectoryPath(disk, root, q) || SelectedFile(disk, root, lib, limits, q)
    ensures Normal(lib, q) == q
  {
    hide WellFormed, LawfulLibrary, Selected;
    if q != [] {
      var n := Normal(lib, q);
      assert Beyond([], disk[root].table.Keys, q);
      assert Accounted(disk, root, lib, limits.selector, q, origins, pins);
      assert Resolve(disk, root, n) == Resolve(disk, root, q);
      if !DirectoryPath(disk, root, q) {
        NormalTwice(lib, q);
        assert Beyond([], disk[root].table.Keys, n);
        assert Accounted(disk, root, lib, limits.selector, n, origins, pins);
        var id := Resolve(disk, root, q).value;
        var i :| 0 <= i < |origins| && origins[i] == Origin(q, id);
        var j :| 0 <= j < |origins| && origins[j] == Origin(n, id);
        assert Recorded(disk, root, lib, limits.selector, origins[i], entries[i]);
        assert Recorded(disk, root, lib, limits.selector, origins[j], entries[j]);
      }
    }
  }

  lemma {:induction false} SuccessAccepts(disk: Disk, root: Id, lib: Library, limits: Limits, pins: seq<Pinned>,
                                          origins: seq<Origin>, entries: seq<TreeEntry>)
    requires WellFormed(disk) && LawfulLibrary(lib) && root in disk && disk[root].kind.Directory?
    requires Covered(disk, root, lib, limits.selector, [], disk[root].table.Keys, origins, entries, pins)
    requires DistinctPaths(entries) && AllLead(disk, root, pins) && SinglyLinkedDirectories(disk, root)
    requires |entries| <= limits.maxFiles && TotalSize(entries) <= limits.maxBytes as int
    ensures Acceptable(disk, root, lib, limits)
  {
    forall q | DirectoryPath(disk, root, q) || SelectedFile(disk, root, lib, limits, q) ensures Normal(lib, q) == q {
      SuccessIsNormal(disk, root, lib, limits, pins, origins, entries, q);
    }
    forall q ensures !Irregular(disk, root, q) {
      if Resolve(disk, root, q).Some? && q != [] {
        assert Beyond([], disk[root].table.Keys, q);
        assert Accounted(disk, root, lib, limits.selector, q, origins, pins);
      }
    }
    forall files ensures !OverBudget(disk, root, lib, limits, files) {
      if Distinct(files) && forall q | q in files :: SelectedFile(disk, root, lib, limits, q) {
        WithinBudget(disk, root, lib, limits, pins, origins, entries, files);
      }
    }
  }

  lemma {:induction false} WithinBudget(disk: Disk, root: Id, lib: Library, limits: Limits, pins: seq<Pinned>,
                                        origins: seq<Origin>, entries: seq<TreeEntry>, files: seq<Path>)
    requires WellFormed(disk) && root in disk && disk[root].kind.Directory?
    requires Covered(disk, root, lib, limits.selector, [], disk[root].table.Keys, origins, entries, pins)
    requires Distinct(files) && forall q | q in files :: SelectedFile(disk, root, lib, limits, q)
    ensures |files| <= |entries| && SumSizes(disk, root, files) <= TotalSize(entries)
  {
    forall q | q in files ensures q in Raws(origins) {
      assert q != [];
      assert Beyond([], disk[root].table.Keys, q);
      assert Accounted(disk, root, lib, limits.selector, q, origins, pins);
      var id := Resolve(disk, root, q).value;
      var i :| 0 <= i < |origins| && origins[i] == Origin(q, id);
      assert Raws(origins)[i] == q;
    }
    RecordedSizes(disk, root, lib, limits, origins, entries);
    SublistSum(disk, root, files, Raws(origins));
  }
}
