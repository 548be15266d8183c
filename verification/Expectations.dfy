/** Resolving an expectation against the local file system (internal/expectation/load.go). */
module Expectations {
  import opened Basics
  import opened CleanMeaning
  import opened CleanPaths
  import opened Observations
  import opened Selection
  import opened TreeAcceptance

  datatype Expectation = Expectation(launchKind: string, entrypoint: string, fingerprints: seq<Fingerprint>,
                                     root: string, includes: seq<string>, excludes: seq<string>, sha256: string,
                                     maxFiles: nat, maxBytes: int64, allowedRoots: seq<string>, allowSymlinks: bool,
                                     trust: string)

  datatype Resolved = Resolved(value: Expectation, artifactRoot: string, allowedRoots: seq<string>)

  /** `expandDeclaredPath` under one base and home directory, and `filepath.EvalSymlinks`. */
  datatype FileNames = FileNames(expand: string -> Option<string>, follow: string -> Option<string>)

  /** A followed path is never the empty text. */
  ghost predicate LawfulNames(names: FileNames) {
    forall path :: names.follow(path) != Some("")
  }

  /** `validateSemantics`. */
  predicate ValidSemantics(lib: Library, value: Expectation) {
    && (forall i, j | 0 <= i < j < |value.fingerprints| ::
         value.fingerprints[i].position != value.fingerprints[j].position)
    && RelativeSlashPath(Split(value.entrypoint))
    && (forall p | p in value.includes :: ValidPattern(lib, Split(p)))
    && (forall p | p in value.excludes :: ValidPattern(lib, Split(p)))
  }

  function ResolveExisting(names: FileNames, declared: string): Option<string> {
    match names.expand(declared)
    case None => None
    case Some(path) => names.follow(path)
  }

  /** Joined the way `filepath.Join` does; the artifact root is never empty. */
  function EntrypointPath(artifactRoot: string, entrypoint: string): string {
    artifactRoot + "/" + entrypoint
  }

  ghost predicate AllResolve(names: FileNames, declared: seq<string>, resolved: seq<string>) {
    |resolved| == |declared| &&
      forall i | 0 <= i < |declared| :: ResolveExisting(names, declared[i]) == Some(resolved[i])
  }

  /** What `resolve` demands of the declared roots. */
  ghost predicate Acceptance(names: FileNames, value: Expectation, r: Resolved) {
    && r.value == value && AllResolve(names, value.allowedRoots, r.allowedRoots)
    && ResolveExisting(names, value.root) == Some(r.artifactRoot)
    && (value.allowSymlinks || Render(CleanText(names.expand(value.root).value)) == r.artifactRoot)
    && (exists i :: 0 <= i < |r.allowedRoots| && PathWithin(r.allowedRoots[i], r.artifactRoot))
  }

  /**
    `resolve` after `validateSemantics`.  Its last test, that the entrypoint does not
    escape the artifact root, never fails there.
   */
  method Resolve(lib: Library, names: FileNames, value: Expectation) returns (r: Option<Resolved>)
    requires LawfulNames(names) && ValidSemantics(lib, value)
    ensures r.Some? ==> Acceptance(names, value, r.value) &&
                        PathWithin(r.value.artifactRoot, EntrypointPath(r.value.artifactRoot, value.entrypoint))
    ensures r.None? ==> forall x :: !Acceptance(names, value, x)
  {
    hide PathWithin, CleanText, Render, ValidSemantics;
    var allowedRoots: seq<string> := [];
    for i := 0 to |value.allowedRoots|
      invariant AllResolve(names, value.allowedRoots[..i], allowedRoots)
    {
      var resolved := ResolveExisting(names, value.allowedRoots[i]);
      if resolved.None? {
        return None;
      }
      allowedRoots := allowedRoots + [resolved.value];
    }
    assert value.allowedRoots[..|value.allowedRoots|] == value.allowedRoots;
    forall others | AllResolve(names, value.allowedRoots, others) ensures others == allowedRoots {
    }
    var declaredRoot := names.expand(value.root);
    if declaredRoot.None? {
      return None;
    }
    var artifactRoot := names.follow(declaredRoot.value);
    if artifactRoot.None? {
      return None;
    }
    if !value.allowSymlinks && Render(CleanText(declaredRoot.value)) != artifactRoot.value {
      return None;
    }
    var inside := false;
    var i := 0;
    while i < |allowedRoots| && !inside
      invariant 0 <= i <= |allowedRoots|
      invariant inside <==> exists j :: 0 <= j < i && PathWithin(allowedRoots[j], artifactRoot.value)
    {
      inside := PathWithin(allowedRoots[i], artifactRoot.value);
      i := i + 1;
    }
    if !inside {
      return None;
    }
    EntrypointInside(lib, value, artifactRoot.value);
    r := Some(Resolved(value, artifactRoot.value, allowedRoots));
  }

  lemma EntrypointInside(lib: Library, value: Expectation, artifactRoot: string)
    requires ValidSemantics(lib, value) && artifactRoot != ""
    ensures PathWithin(artifactRoot, EntrypointPath(artifactRoot, value.entrypoint))
  {
    JoinDescends(artifactRoot, value.entrypoint);
  }

  /** The limits a digest works under. */
  function LimitsOf(r: Resolved): Limits {
    Limits(Selector(SplitAll(r.value.includes), SplitAll(r.value.excludes)), r.value.maxFiles, r.value.maxBytes,
      Split(r.value.entrypoint))
  }

  function SplitAll(texts: seq<string>): seq<Path> {
    seq(|texts|, i requires 0 <= i < |texts| => Split(texts[i]))
  }

  /** A digest selects what the declared include patterns describe and no declared exclude pattern does. */
  lemma {:induction false} SelectsDeclared(lib: Library, r: Resolved, path: Path)
    ensures Selected(lib, LimitsOf(r).selector, path) <==>
              && path != [] && (forall s | s in path :: s !in {"", ".", ".."} && '\\' !in s)
              && (exists text | text in r.value.includes :: Describes(lib, Split(text), path))
              && (forall text | text in r.value.excludes :: !Describes(lib, Split(text), path))
    ensures LimitsOf(r).maxFiles == r.value.maxFiles && LimitsOf(r).maxBytes == r.value.maxBytes
    ensures Slash(LimitsOf(r).entrypoint) == r.value.entrypoint
    ensures forall s | s in LimitsOf(r).entrypoint :: '/' !in s
  {
    hide Describes;
    SelectedExactly(lib, LimitsOf(r).selector, path);
    SplitExactly(r.value.entrypoint);
    SplitAllHas(r.value.includes);
    SplitAllHas(r.value.excludes);
  }

  lemma SplitAllHas(texts: seq<string>)
    ensures forall p :: p in SplitAll(texts) <==> exists text | text in texts :: Split(text) == p
  {
    forall p | p in SplitAll(texts) ensures exists text | text in texts :: Split(text) == p {
      var i :| 0 <= i < |texts| && SplitAll(texts)[i] == p;
      assert texts[i] in texts;
    }
    forall text | text in texts ensures Split(text) in SplitAll(texts) {
      var i :| 0 <= i < |texts| && texts[i] == text;
      assert SplitAll(texts)[i] == Split(text);
    }
  }

  // ----- Containment --------------------------------------------------------------------------

  /** `withinAny` of internal/evaluator/evaluator.go. */
  predicate WithinAny(roots: seq<string>, target: string) {
    target != "" && exists i :: 0 <= i < |roots| && PathWithin(roots[i], target)
  }

  /** `equivalentPath`. */
  predicate EquivalentPath(left: string, right: string) {
    Render(CleanText(left)) == Render(CleanText(right))
  }

  /** Inside an allowed root: a path was seen, and its cleaned segments continue those of some root. */
  lemma {:induction false} WithinAnyExactly(roots: seq<string>, target: string)
    ensures WithinAny(roots, target) <==>
              target != "" && exists root | root in roots :: Below(CleanText(root), CleanText(target))
  {
    hide PathWithin, Below;
    forall root | root in roots ensures PathWithin(root, target) <==> Below(CleanText(root), CleanText(target)) {
      WithinMeansBelow(root, target);
    }
    forall i | 0 <= i < |roots| ensures roots[i] in roots {
    }
  }

  /** The path is the declared entrypoint: its segments are those of the artifact root and then the entrypoint's. */
  lemma {:induction false} EntrypointExactly(artifactRoot: string, entrypoint: string, path: string)
    requires artifactRoot != "" && RelativeSlashPath(Split(entrypoint))
    ensures EquivalentPath(EntrypointPath(artifactRoot, entrypoint), path) <==>
              var root := CleanText(artifactRoot);
              CleanText(path) == Clean(root.rooted, root.segments + Split(entrypoint))
  {
    JoinDescends(artifactRoot, entrypoint);
    RenderInjective(EntrypointPath(artifactRoot, entrypoint), path);
  }

  /** Whoever runs exactly the declared entrypoint runs inside an allowed root. */
  lemma {:induction false} EntrypointStaysInside(lib: Library, names: FileNames, value: Expectation, r: Resolved,
                                                 declared: string)
    requires LawfulNames(names) && ValidSemantics(lib, value) && Acceptance(names, value, r)
    requires EquivalentPath(EntrypointPath(r.artifactRoot, value.entrypoint), declared)
    ensures WithinAny(r.allowedRoots, declared)
  {
    var entry := EntrypointPath(r.artifactRoot, value.entrypoint);
    var path := names.expand(value.root).value;
    assert names.follow(path) != Some("");
    JoinDescends(r.artifactRoot, value.entrypoint);
    RenderInjective(entry, declared);
    assert CleanText(entry).segments != [];
    assert CleanText("").segments == [] by {
      assert Split("") == [""];
    }
    var i :| 0 <= i < |r.allowedRoots| && PathWithin(r.allowedRoots[i], r.artifactRoot);
    WithinComposes(r.allowedRoots[i], r.artifactRoot, entry);
    assert PathWithin(r.allowedRoots[i], declared);
  }
}
