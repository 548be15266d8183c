/** What it means to hold exactly the selected files of a directory tree at one instant. */
module TreeSpec {
  import opened Basics
  import opened Kernel
  import opened Selection

  datatype TreeEntry = TreeEntry(path: string, sha256: string, size: int64)

  /** A recorded path and the state its file showed. */
  datatype Pinned = Pinned(path: Path, state: FileState)

  /** Where an entry came from: its path as the kernel spells it, and the inode. */
  datatype Origin = Origin(raw: Path, id: Id)

  /** NFC is idempotent and keeps a valid entry name valid. */
  ghost predicate LawfulLibrary(lib: Library) {
    forall s :: TamelyNormal(lib, s)
  }

  ghost predicate TamelyNormal(lib: Library, s: string) {
    lib.nfc(lib.nfc(s)) == lib.nfc(s) && (EntryName(s) ==> EntryName(lib.nfc(s)))
  }

  function Normal(lib: Library, path: Path): (r: Path)
    ensures |r| == |path| && forall i | 0 <= i < |path| :: r[i] == lib.nfc(path[i])
  {
    seq(|path|, i requires 0 <= i < |path| => lib.nfc(path[i]))
  }

  /** The inode a path leads to, following no links. */
  ghost function Resolve(disk: Disk, from: Id, path: Path): Option<Id>
    decreases |path|
  {
    if from !in disk then None
    else if path == [] then Some(from)
    else if disk[from].kind.Directory? && path[0] in disk[from].table
    then Resolve(disk, disk[from].table[path[0]], path[1..])
    else None
  }

  lemma {:induction false} ResolveSplit(disk: Disk, from: Id, first: Path, second: Path)
    ensures Resolve(disk, from, first + second) ==
            match Resolve(disk, from, first) { case Some(id) => Resolve(disk, id, second) case None => None }
    decreases |first|
  {
    if first == [] {
      assert first + second == second;
      assert from !in disk ==> Resolve(disk, from, second).None?;
    } else if from in disk && disk[from].kind.Directory? && first[0] in disk[from].table {
      assert (first + second)[1..] == first[1..] + second;
      ResolveSplit(disk, disk[from].table[first[0]], first[1..], second);
    }
  }

  lemma {:induction false} ResolveStep(disk: Disk, root: Id, raw: Path, directory: Id, name: string)
    requires Resolve(disk, root, raw) == Some(directory) && directory in disk && disk[directory].kind.Directory?
    requires name in disk[directory].table && disk[directory].table[name] in disk
    ensures Resolve(disk, root, raw + [name]) == Some(disk[directory].table[name])
  {
    ResolveSplit(disk, root, raw, [name]);
  }

  ghost function EntryFor(lib: Library, raw: Path, node: Inode): TreeEntry {
    TreeEntry(Slash(Normal(lib, raw)), lib.sha256(node.content), node.size)
  }

  ghost predicate Recorded(disk: Disk, root: Id, lib: Library, selector: Selector, origin: Origin, entry: TreeEntry) {
    && Resolve(disk, root, origin.raw) == Some(origin.id) && origin.id in disk
    && disk[origin.id].kind.Regular? && Selected(lib, selector, Normal(lib, origin.raw))
    && entry == EntryFor(lib, origin.raw, disk[origin.id])
  }

  /** Directories and selected files were noted; anything but a directory or a regular file is absent. */
  ghost predicate Accounted(disk: Disk, root: Id, lib: Library, selector: Selector, raw: Path, origins: seq<Origin>,
                            pins: seq<Pinned>) {
    match Resolve(disk, root, raw)
    case None => true
    case Some(id) => id in disk && match disk[id].kind
      case Directory => Pinned(Normal(lib, raw), StateOf(id, disk[id])) in pins
      case Regular => Selected(lib, selector, Normal(lib, raw)) ==>
                        Origin(raw, id) in origins && Pinned(Normal(lib, raw), StateOf(id, disk[id])) in pins
      case _ => false
  }

  /** Strictly below `raw`, through one of the names given. */
  predicate Beyond(raw: Path, names: set<string>, q: Path) {
    |raw| < |q| && q[..|raw|] == raw && q[|raw|] in names
  }

  /** Everything below `raw` through these names, and nothing else, is in the lists. */
  ghost predicate Covered(disk: Disk, root: Id, lib: Library, selector: Selector, raw: Path, names: set<string>,
                          origins: seq<Origin>, entries: seq<TreeEntry>, pins: seq<Pinned>) {
    && |origins| == |entries|
    && (forall q | Beyond(raw, names, q) :: Accounted(disk, root, lib, selector, q, origins, pins))
    && (forall i | 0 <= i < |origins| ::
          Beyond(raw, names, origins[i].raw) && Recorded(disk, root, lib, selector, origins[i], entries[i]))
  }

  lemma {:induction false} CoverUnion(disk: Disk, root: Id, lib: Library, selector: Selector, raw: Path, a: set<string>,
                                      o: seq<Origin>, e: seq<TreeEntry>, p: seq<Pinned>, b: set<string>,
                                      o': seq<Origin>, e': seq<TreeEntry>, p': seq<Pinned>)
    requires Covered(disk, root, lib, selector, raw, a, o, e, p)
    requires Covered(disk, root, lib, selector, raw, b, o', e', p')
    ensures Covered(disk, root, lib, selector, raw, a + b, o + o', e + e', p + p')
  {
    forall q | Beyond(raw, a + b, q) ensures Accounted(disk, root, lib, selector, q, o + o', p + p') {
      if q[|raw|] in a {
        assert Beyond(raw, a, q) && Accounted(disk, root, lib, selector, q, o, p);
      } else {
        assert Beyond(raw, b, q) && Accounted(disk, root, lib, selector, q, o', p');
      }
    }
    forall i | 0 <= i < |o + o'|
      ensures Beyond(raw, a + b, (o + o')[i].raw) && Recorded(disk, root, lib, selector, (o + o')[i], (e + e')[i])
    {
      if i < |o| {
        assert Beyond(raw, a, o[i].raw);
      } else {
        assert Beyond(raw, b, o'[i - |o|].raw);
      }
    }
  }

  /** A child directory that is covered below covers its own name. */
  lemma {:induction false} CoverDirectory(disk: Disk, root: Id, lib: Library, selector: Selector, raw: Path,
                                          name: string, child: Id, o: seq<Origin>, e: seq<TreeEntry>, p: seq<Pinned>)
    requires WellFormed(disk) && child in disk && disk[child].kind.Directory?
    requires Resolve(disk, root, raw + [name]) == Some(child)
    requires Covered(disk, root, lib, selector, raw + [name], disk[child].table.Keys, o, e, p)
    ensures Covered(disk, root, lib, selector, raw, {name}, o, e,
                    [Pinned(Normal(lib, raw + [name]), StateOf(child, disk[child]))] + p)
  {
    var here := raw + [name];
    var p' := [Pinned(Normal(lib, here), StateOf(child, disk[child]))] + p;
    forall q | Beyond(raw, {name}, q) ensures Accounted(disk, root, lib, selector, q, o, p') {
      assert q[..|here|] == here;
      if |q| == |here| {
        assert q == here && p'[0] in p';
      } else {
        var rest := q[|here|..];
        assert q == here + rest;
        ResolveSplit(disk, root, here, rest);
        if Resolve(disk, root, q).Some? {
          assert rest[0] in disk[child].table;
          assert Beyond(here, disk[child].table.Keys, q);
          assert Accounted(disk, root, lib, selector, q, o, p);
        }
      }
    }
    forall i | 0 <= i < |o| ensures Beyond(raw, {name}, o[i].raw) {
      assert Beyond(here, disk[child].table.Keys, o[i].raw);
      assert o[i].raw[..|raw|] == o[i].raw[..|here|][..|raw|] == raw;
      assert o[i].raw[|raw|] == o[i].raw[..|here|][|raw|] == name;
    }
  }

  /** A file has nothing below it. */
  lemma {:induction false} NothingBelowFile(disk: Disk, root: Id, raw: Path, name: string, child: Id, q: Path)
    requires child in disk && !disk[child].kind.Directory?
    requires Resolve(disk, root, raw + [name]) == Some(child)
    requires Beyond(raw, {name}, q) && Resolve(disk, root, q).Some?
    ensures q == raw + [name]
  {
    var here := raw + [name];
    assert q[..|here|] == here && q == here + q[|here|..];
    ResolveSplit(disk, root, here, q[|here|..]);
  }

  lemma {:induction false} CoverFile(disk: Disk, root: Id, lib: Library, selector: Selector, raw: Path, name: string,
                                     child: Id)
    requires child in disk && disk[child].kind.Regular?
    requires Resolve(disk, root, raw + [name]) == Some(child)
    ensures var here := raw + [name];
      if Selected(lib, selector, Normal(lib, here)) then
        Covered(disk, root, lib, selector, raw, {name}, [Origin(here, child)], [EntryFor(lib, here, disk[child])],
                [Pinned(Normal(lib, here), StateOf(child, disk[child]))])
      else
        Covered(disk, root, lib, selector, raw, {name}, [], [], [])
  {
    var here := raw + [name];
    var o, p := [Origin(here, child)], [Pinned(Normal(lib, here), StateOf(child, disk[child]))];
    assert o[0] in o && p[0] in p;
    forall q | Beyond(raw, {name}, q)
      ensures Selected(lib, selector, Normal(lib, here)) ==> Accounted(disk, root, lib, selector, q, o, p)
      ensures !Selected(lib, selector, Normal(lib, here)) ==> Accounted(disk, root, lib, selector, q, [], [])
    {
      if Resolve(disk, root, q).Some? {
        NothingBelowFile(disk, root, raw, name, child, q);
      }
    }
    assert here[..|raw|] == raw && here[|raw|] == name;
  }
}
