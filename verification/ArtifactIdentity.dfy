/** What a tree digest identifies: the exact tree is unique, and its digest determines it. */
module ArtifactIdentity {
  import opened Basics
  import opened Canonical
  import opened Integers
  import opened Json
  import opened Kernel
  import opened LexOrder
  import opened RoundTrip
  import opened Selection
  import opened TreeAcceptance
  import opened TreeDigest
  import opened TreeSpec
  import opened TreeWalk
  import Utf8

  /** The largest max_bytes the expectation schema allows. */
  const MAX_BYTES: int64 := 1099511627776

  // ----- One disk, one tree -----------------------------------------------------------------

  /** Both lists hold the entry of each selected file. */
  lemma {:induction false} SameEntry(disk: Disk, root: Id, lib: Library, limits: Limits, origins: seq<Origin>,
                                     tree: Tree, origins': seq<Origin>, tree': Tree, i: nat) returns (j: nat)
    requires ExactTree(disk, root, lib, limits, origins, tree) && ExactTree(disk, root, lib, limits, origins', tree')
    requires i < |origins|
    ensures j < |origins'| && origins'[j] == origins[i] && tree'.entries[j] == tree.entries[i]
  {
    assert Recorded(disk, root, lib, limits.selector, origins[i], tree.entries[i]);
    assert origins[i].raw != [] && origins[i] in origins';
    j :| 0 <= j < |origins'| && origins'[j] == origins[i];
    assert Recorded(disk, root, lib, limits.selector, origins'[j], tree'.entries[j]);
  }

  lemma {:induction false} EntryInOther(disk: Disk, root: Id, lib: Library, limits: Limits, origins: seq<Origin>,
                                        tree: Tree, origins': seq<Origin>, tree': Tree, e: TreeEntry)
    requires ExactTree(disk, root, lib, limits, origins, tree) && ExactTree(disk, root, lib, limits, origins', tree')
    requires e in tree.entries
    ensures e in tree'.entries
  {
    var i :| 0 <= i < |tree.entries| && tree.entries[i] == e;
    var j := SameEntry(disk, root, lib, limits, origins, tree, origins', tree', i);
  }

  lemma {:induction false} LinkedAlike(disk: Disk, root: Id, lib: Library, limits: Limits, origins: seq<Origin>,
                                       tree: Tree, origins': seq<Origin>, tree': Tree)
    requires ExactTree(disk, root, lib, limits, origins, tree) && ExactTree(disk, root, lib, limits, origins', tree')
    requires tree.entrypointIdentity.Some?
    ensures tree.entrypointIdentity == tree'.entrypointIdentity
  {
    var entrypoint := NormalizeRelative(lib, limits.entrypoint);
    assert EntrypointLinked(entrypoint, tree.entries, origins, tree.entrypointIdentity);
    assert EntrypointLinked(entrypoint, tree'.entries, origins', tree'.entrypointIdentity);
    var e :| e in tree.entries && e.path == Slash(entrypoint.value);
    var i :| 0 <= i < |tree.entries| && tree.entries[i] == e;
    var j := SameEntry(disk, root, lib, limits, origins, tree, origins', tree', i);
  }

  /** In whatever order the walk went, the sorted result is one and the same. */
  lemma {:induction false} ExactTreeIsUnique(disk: Disk, root: Id, lib: Library, limits: Limits, origins: seq<Origin>,
                                             tree: Tree, origins': seq<Origin>, tree': Tree)
    requires ExactTree(disk, root, lib, limits, origins, tree) && SortedByPath(tree.entries)
    requires ExactTree(disk, root, lib, limits, origins', tree') && SortedByPath(tree'.entries)
    ensures tree == tree'
  {
    forall e ensures e in tree.entries <==> e in tree'.entries {
      if e in tree.entries {
        EntryInOther(disk, root, lib, limits, origins, tree, origins', tree', e);
      }
      if e in tree'.entries {
        EntryInOther(disk, root, lib, limits, origins', tree', origins, tree, e);
      }
    }
    SortedUnique(tree.entries, tree'.entries, (e: TreeEntry) => Codes(e.path));
    if tree.entrypointIdentity.Some? {
      LinkedAlike(disk, root, lib, limits, origins, tree, origins', tree');
    } else if tree'.entrypointIdentity.Some? {
      LinkedAlike(disk, root, lib, limits, origins', tree', origins, tree);
    }
  }

  // ----- The digest of the canonical list ---------------------------------------------------

  /** An entry as `json.Marshal` and the decoder after it present it. */
  function EntryValue(e: TreeEntry): Value {
    Obj(map["path" := Str(e.path), "sha256" := Str(e.sha256), "size" := Num(FormatInt(e.size as int))])
  }

  function TreeValue(entries: seq<TreeEntry>): (v: Value)
    ensures v.Arr? && |v.items| == |entries| && forall i | 0 <= i < |entries| :: v.items[i] == EntryValue(entries[i])
  {
    Arr(seq(|entries|, i requires 0 <= i < |entries| => EntryValue(entries[i])))
  }

  ghost predicate SafeSizes(entries: seq<TreeEntry>) {
    forall e | e in entries :: SafeInteger(e.size as int)
  }

  lemma {:induction false} TreePrintable(entries: seq<TreeEntry>)
    requires SafeSizes(entries)
    ensures Printable(TreeValue(entries))
  {
    forall i | 0 <= i < |entries| ensures Printable(EntryValue(entries[i])) {
      assert entries[i] in entries;
      AcceptedIntegers(FormatInt(entries[i].size as int));
    }
  }

  /** The hex digest of the canonical text of the list. */
  ghost function TreeSha(lib: Library, entries: seq<TreeEntry>): string
    requires Printable(TreeValue(entries))
  {
    lib.sha256(Utf8.Encode(Print(TreeValue(entries))))
  }

  /** SHA-256 as an injective function. */
  ghost predicate InjectiveHash(hash: seq<Byte> -> string) {
    forall a, b | hash(a) == hash(b) :: a == b
  }

  lemma {:induction false} EntryValueInjective(a: TreeEntry, b: TreeEntry)
    requires SafeInteger(a.size as int) && SafeInteger(b.size as int) && EntryValue(a) == EntryValue(b)
    ensures a == b
  {
    var x, y := EntryValue(a).members, EntryValue(b).members;
    assert x["path"] == y["path"] && x["sha256"] == y["sha256"] && x["size"] == y["size"];
    FormatIntParses(a.size as int);
    FormatIntParses(b.size as int);
  }

  /** Equal digests come from equal lists. */
  lemma {:induction false} TreeShaInjective(lib: Library, a: seq<TreeEntry>, b: seq<TreeEntry>)
    requires InjectiveHash(lib.sha256) && SafeSizes(a) && SafeSizes(b)
    requires Printable(TreeValue(a)) && Printable(TreeValue(b)) && TreeSha(lib, a) == TreeSha(lib, b)
    ensures a == b
  {
    Utf8.EncodeInjective(Print(TreeValue(a)), Print(TreeValue(b)));
    PrintInjective(TreeValue(a), TreeValue(b));
    assert |a| == |TreeValue(a).items| == |b|;
    forall i | 0 <= i < |a| ensures a[i] == b[i] {
      assert a[i] in a && b[i] in b && TreeValue(a).items[i] == TreeValue(b).items[i];
      EntryValueInjective(a[i], b[i]);
    }
  }

  // ----- What a result says about the disk ---------------------------------------------------

  datatype ArtifactObservation =
    ArtifactObservation(sha256: string, fileCount: nat, byteCount: int64, entrypointIdentity: Option<Id>)

  ghost predicate FileArtifact(disk: Disk, lib: Library, root: Id, o: ArtifactObservation) {
    && root in disk && disk[root].kind.Regular?
    && o == ArtifactObservation(lib.sha256(disk[root].content), 1, disk[root].size, Some(root))
  }

  ghost predicate TreeArtifact(disk: Disk, lib: Library, limits: Limits, root: Id, origins: seq<Origin>, tree: Tree,
                               o: ArtifactObservation) {
    && ExactTree(disk, root, lib, limits, origins, tree) && SortedByPath(tree.entries) && tree.entries != []
    && SafeSizes(tree.entries) && Printable(TreeValue(tree.entries))
    && o == ArtifactObservation(TreeSha(lib, tree.entries), |tree.entries|, tree.totalBytes, tree.entrypointIdentity)
  }

  /** The artifact at this instant is what was observed. */
  ghost predicate ArtifactAt(disk: Disk, lib: Library, limits: Limits, root: Id, o: ArtifactObservation) {
    FileArtifact(disk, lib, root, o) || exists origins, tree :: TreeArtifact(disk, lib, limits, root, origins, tree, o)
  }

  /** At one instant there is only one thing to observe. */
  lemma {:induction false} ArtifactIsUnique(disk: Disk, lib: Library, limits: Limits, root: Id, o: ArtifactObservation,
                                            o': ArtifactObservation)
    requires ArtifactAt(disk, lib, limits, root, o) && ArtifactAt(disk, lib, limits, root, o')
    ensures o == o'
  {
    if !FileArtifact(disk, lib, root, o) && !FileArtifact(disk, lib, root, o') {
      var origins, tree :| TreeArtifact(disk, lib, limits, root, origins, tree, o);
      var origins', tree' :| TreeArtifact(disk, lib, limits, root, origins', tree', o');
      ExactTreeIsUnique(disk, root, lib, limits, origins, tree, origins', tree');
    }
  }

  lemma {:induction false} PartOfTotal(entries: seq<TreeEntry>, e: TreeEntry)
    requires e in entries && forall x | x in entries :: x.size >= 0
    ensures 0 <= e.size as int <= TotalSize(entries)
  {
    var n := |entries| - 1;
    forall x | x in entries[..n] ensures x.size >= 0 {
      assert x in entries;
    }
    TotalNonNegative(entries[..n]);
    assert entries[n] in entries;
    if e != entries[n] {
      assert entries == entries[..n] + [entries[n]];
      PartOfTotal(entries[..n], e);
    }
  }

  lemma {:induction false} TotalNonNegative(entries: seq<TreeEntry>)
    requires forall x | x in entries :: x.size >= 0
    ensures TotalSize(entries) >= 0
  {
    if entries != [] {
      var n := |entries| - 1;
      assert entries[n] in entries;
      forall x | x in entries[..n] ensures x.size >= 0 {
        assert x in entries;
      }
      TotalNonNegative(entries[..n]);
    }
  }

  /** `canonical.Marshal` cannot fail on what the walk returns. */
  lemma {:induction false} ExactTreePrintable(disk: Disk, root: Id, lib: Library, limits: Limits, origins: seq<Origin>,
                                              tree: Tree)
    requires WellFormed(disk) && ExactTree(disk, root, lib, limits, origins, tree) && limits.maxBytes <= MAX_BYTES
    ensures SafeSizes(tree.entries) && Printable(TreeValue(tree.entries))
  {
    forall e | e in tree.entries ensures e.size >= 0 {
      var i :| 0 <= i < |tree.entries| && tree.entries[i] == e;
      assert Recorded(disk, root, lib, limits.selector, origins[i], tree.entries[i]);
    }
    forall e | e in tree.entries ensures SafeInteger(e.size as int) {
      PartOfTotal(tree.entries, e);
    }
    TreePrintable(tree.entries);
  }

  /** A selected file with this normalized path holds these bytes. */
  ghost predicate Holds(disk: Disk, root: Id, lib: Library, selector: Selector, q: Path, path: string,
                        content: seq<Byte>) {
    match Resolve(disk, root, q)
    case None => false
    case Some(id) => id in disk && disk[id].kind.Regular? && Selected(lib, selector, Normal(lib, q)) &&
                     Slash(Normal(lib, q)) == path && disk[id].content == content
  }

  /** Some selected file does. */
  ghost predicate Contains(disk: Disk, root: Id, lib: Library, selector: Selector, path: string, content: seq<Byte>) {
    exists q :: Holds(disk, root, lib, selector, q, path, content)
  }

  /** The list has the path and hash of every selected file, and of nothing else. */
  ghost predicate Describes(disk: Disk, root: Id, lib: Library, selector: Selector, entries: seq<TreeEntry>) {
    && (forall q, path, content | Holds(disk, root, lib, selector, q, path, content) ::
         Names(lib, entries, path, content))
    && (forall e | e in entries :: exists q, content ::
          Holds(disk, root, lib, selector, q, e.path, content) && e.sha256 == lib.sha256(content))
  }

  ghost predicate Names(lib: Library, entries: seq<TreeEntry>, path: string, content: seq<Byte>) {
    exists e :: e in entries && e.path == path && e.sha256 == lib.sha256(content)
  }

  lemma {:induction false} ExactTreeDescribes(disk: Disk, root: Id, lib: Library, limits: Limits, origins: seq<Origin>,
                                              tree: Tree)
    requires ExactTree(disk, root, lib, limits, origins, tree)
    ensures Describes(disk, root, lib, limits.selector, tree.entries)
  {
    forall q, path, content | Holds(disk, root, lib, limits.selector, q, path, content)
      ensures Names(lib, tree.entries, path, content)
    {
      var id := Resolve(disk, root, q).value;
      assert q != [] && Origin(q, id) in origins;
      var i :| 0 <= i < |origins| && origins[i] == Origin(q, id);
      assert Recorded(disk, root, lib, limits.selector, origins[i], tree.entries[i]);
      assert tree.entries[i] in tree.entries;
    }
    forall e | e in tree.entries
      ensures exists q, content ::
                Holds(disk, root, lib, limits.selector, q, e.path, content) && e.sha256 == lib.sha256(content)
    {
      var i :| 0 <= i < |tree.entries| && tree.entries[i] == e;
      assert Recorded(disk, root, lib, limits.selector, origins[i], tree.entries[i]);
      assert Holds(disk, root, lib, limits.selector, origins[i].raw, e.path, disk[origins[i].id].content);
    }
  }

  /** Two lists with one digest. */
  ghost predicate SameDigest(lib: Library, a: seq<TreeEntry>, b: seq<TreeEntry>) {
    SafeSizes(a) && SafeSizes(b) && Printable(TreeValue(a)) && Printable(TreeValue(b)) &&
      TreeSha(lib, a) == TreeSha(lib, b)
  }

  lemma {:induction false} SameFiles(lib: Library, disk: Disk, root: Id, selector: Selector, entries: seq<TreeEntry>,
                                     path: string, content: seq<Byte>)
    requires InjectiveHash(lib.sha256) && Describes(disk, root, lib, selector, entries)
    ensures Contains(disk, root, lib, selector, path, content) <==> Names(lib, entries, path, content)
  {
    if Names(lib, entries, path, content) {
      var e :| e in entries && e.path == path && e.sha256 == lib.sha256(content);
      var q, same :| Holds(disk, root, lib, selector, q, e.path, same) && e.sha256 == lib.sha256(same);
      assert same == content;
    }
  }

  /**
    The digest determines the tree: two directories, at whatever instants and on
    whatever disks, with equal digests have the same selected paths with the same contents.
   */
  lemma {:induction false} DigestDeterminesTree(lib: Library, disk: Disk, root: Id, selector: Selector,
                                                entries: seq<TreeEntry>, disk': Disk, root': Id, selector': Selector,
                                                entries': seq<TreeEntry>)
    requires InjectiveHash(lib.sha256) && SameDigest(lib, entries, entries')
    requires Describes(disk, root, lib, selector, entries) && Describes(disk', root', lib, selector', entries')
    ensures forall path, content ::
              Contains(disk, root, lib, selector, path, content) <==>
              Contains(disk', root', lib, selector', path, content)
    ensures entries == entries'
  {
    TreeShaInjective(lib, entries, entries');
    forall path, content
      ensures Contains(disk, root, lib, selector, path, content) <==>
              Contains(disk', root', lib, selector', path, content)
    {
      SameFiles(lib, disk, root, selector, entries, path, content);
      SameFiles(lib, disk', root', selector', entries', path, content);
    }
  }

  /** In terms of what `Digest` returns for directory roots. */
  lemma {:induction false} ObservationDeterminesTree(lib: Library, disk: Disk, root: Id, limits: Limits,
                                                     origins: seq<Origin>, tree: Tree, o: ArtifactObservation,
                                                     disk': Disk, root': Id, limits': Limits, origins': seq<Origin>,
                                                     tree': Tree, o': ArtifactObservation)
    requires InjectiveHash(lib.sha256) && o.sha256 == o'.sha256
    requires TreeArtifact(disk, lib, limits, root, origins, tree, o)
    requires TreeArtifact(disk', lib, limits', root', origins', tree', o')
    ensures forall path, content :: Contains(disk, root, lib, limits.selector, path, content) <==>
                                    Contains(disk', root', lib, limits'.selector, path, content)
    ensures o.fileCount == o'.fileCount && o.byteCount == o'.byteCount
  {
    hide Contains, Describes, TreeValue, TreeSha, Printable;
    ExactTreeDescribes(disk, root, lib, limits, origins, tree);
    ExactTreeDescribes(disk', root', lib, limits', origins', tree');
    DigestDeterminesTree(lib, disk, root, limits.selector, tree.entries, disk', root', limits'.selector, tree'.entries);
  }
}
