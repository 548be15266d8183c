/** Which files of a tree an expectation selects (internal/expectation/match.go). */
module Selection {
  import opened Basics

  /**
    Code from outside the repository: SHA-256 in lower-case hex, Unicode NFC, and
    `path.Match` of one segment, None being its ErrBadPattern.
   */
  datatype Library = Library(sha256: seq<Byte> -> string, nfc: string -> string,
                             glob: (string, string) -> Option<bool>)

  datatype Selector = Selector(includes: seq<Path>, excludes: seq<Path>)

  /** `validateRelativeSlashPath` on a path split at its slashes; an empty text splits to one empty segment. */
  predicate RelativeSlashPath(path: Path) {
    path != [] && forall s | s in path :: s != "" && s != "." && s != ".." && '\\' !in s
  }

  predicate ValidPattern(lib: Library, pattern: Path) {
    RelativeSlashPath(pattern) && forall s | s in pattern :: s == "**" || lib.glob(s, "probe").Some?
  }

  function MatchSegments(lib: Library, pattern: Path, candidate: Path): bool
    decreases |pattern| + |candidate|
  {
    if pattern == [] then candidate == []
    else if pattern[0] == "**" then
      MatchSegments(lib, pattern[1..], candidate) ||
      (candidate != [] && MatchSegments(lib, pattern, candidate[1..]))
    else
      candidate != [] && lib.glob(pattern[0], candidate[0]) == Some(true) &&
      MatchSegments(lib, pattern[1..], candidate[1..])
  }

  predicate MatchPattern(lib: Library, pattern: Path, candidate: Path) {
    ValidPattern(lib, pattern) && RelativeSlashPath(candidate) && MatchSegments(lib, pattern, candidate)
  }

  /** Selected: some include pattern matches and no exclude pattern does. */
  predicate Selected(lib: Library, selector: Selector, path: Path) {
    && RelativeSlashPath(path)
    && (exists p | p in selector.includes :: MatchPattern(lib, p, path))
    && (forall p | p in selector.excludes :: !MatchPattern(lib, p, path))
  }

  method Includes(lib: Library, selector: Selector, path: Path) returns (r: bool)
    ensures r == Selected(lib, selector, path)
  {
    if !RelativeSlashPath(path) {
      return false;
    }
    var included := false;
    var i := 0;
    while i < |selector.includes| && !included
      invariant 0 <= i <= |selector.includes|
      invariant included <==> exists j | 0 <= j < i :: MatchPattern(lib, selector.includes[j], path)
    {
      included := MatchPattern(lib, selector.includes[i], path);
      i := i + 1;
    }
    if !included {
      assert forall p | p in selector.includes :: !MatchPattern(lib, p, path);
      return false;
    }
    assert exists p | p in selector.includes :: MatchPattern(lib, p, path);
    for j := 0 to |selector.excludes|
      invariant forall k | 0 <= k < j :: !MatchPattern(lib, selector.excludes[k], path)
    {
      if MatchPattern(lib, selector.excludes[j], path) {
        return false;
      }
    }
    return true;
  }

  // ----- What a pattern means ---------------------------------------------------------

  function Flatten(runs: seq<Path>): Path {
    if runs == [] then [] else runs[0] + Flatten(runs[1..])
  }

  ghost predicate RunFits(lib: Library, segment: string, run: Path) {
    segment == "**" || (|run| == 1 && lib.glob(segment, run[0]) == Some(true))
  }

  /**
    The candidate laid out as one run of segments for each pattern segment: any
    run for "**", exactly one matching segment for everything else.
   */
  ghost predicate Layout(lib: Library, pattern: Path, candidate: Path, runs: seq<Path>) {
    && |runs| == |pattern| && Flatten(runs) == candidate
    && forall i | 0 <= i < |pattern| :: RunFits(lib, pattern[i], runs[i])
  }

  lemma {:induction false} MatchGivesLayout(lib: Library, pattern: Path, candidate: Path) returns (runs: seq<Path>)
    requires MatchSegments(lib, pattern, candidate)
    ensures Layout(lib, pattern, candidate, runs)
    decreases |pattern| + |candidate|
  {
    if pattern == [] {
      runs := [];
    } else if pattern[0] == "**" && !MatchSegments(lib, pattern[1..], candidate) {
      var shorter := MatchGivesLayout(lib, pattern, candidate[1..]);
      runs := [[candidate[0]] + shorter[0]] + shorter[1..];
      assert candidate == [candidate[0]] + candidate[1..];
    } else {
      var used := if pattern[0] == "**" then 0 else 1;
      var tail := MatchGivesLayout(lib, pattern[1..], candidate[used..]);
      runs := [candidate[..used]] + tail;
      assert runs[1..] == tail && candidate == candidate[..used] + candidate[used..];
      forall i | 0 <= i < |pattern| ensures RunFits(lib, pattern[i], runs[i]) {
        if i > 0 {
          assert RunFits(lib, pattern[1..][i - 1], tail[i - 1]);
        }
      }
    }
  }

  lemma {:induction false} LayoutGivesMatch(lib: Library, pattern: Path, candidate: Path, runs: seq<Path>)
    requires Layout(lib, pattern, candidate, runs)
    ensures MatchSegments(lib, pattern, candidate)
    decreases |pattern|
  {
    if pattern != [] {
      var used := |runs[0]|;
      assert candidate[..used] == runs[0] && candidate[used..] == Flatten(runs[1..]);
      assert RunFits(lib, pattern[0], runs[0]);
      LayoutGivesMatch(lib, pattern[1..], candidate[used..], runs[1..]);
      if pattern[0] == "**" {
        SwallowRun(lib, pattern, candidate, used);
      }
    }
  }

  lemma {:induction false} SwallowRun(lib: Library, pattern: Path, candidate: Path, used: nat)
    requires pattern != [] && pattern[0] == "**" && used <= |candidate|
    requires MatchSegments(lib, pattern[1..], candidate[used..])
    ensures MatchSegments(lib, pattern, candidate)
    decreases used
  {
    if used == 0 {
      assert candidate[0..] == candidate;
    } else {
      assert candidate[1..][used - 1..] == candidate[used..];
      SwallowRun(lib, pattern, candidate[1..], used - 1);
    }
  }

  /** `matchSegments` accepts exactly the candidates that can be laid out along the pattern. */
  lemma {:induction false} MatchMeansLayout(lib: Library, pattern: Path, candidate: Path)
    ensures MatchSegments(lib, pattern, candidate) <==> exists runs :: Layout(lib, pattern, candidate, runs)
  {
    if MatchSegments(lib, pattern, candidate) {
      var runs := MatchGivesLayout(lib, pattern, candidate);
    }
    if runs :| Layout(lib, pattern, candidate, runs) {
      LayoutGivesMatch(lib, pattern, candidate, runs);
    }
  }

  /** A valid pattern with a layout of the path along it. */
  ghost predicate Describes(lib: Library, pattern: Path, path: Path) {
    && pattern != [] && (forall s | s in pattern :: s !in {"", ".", ".."} && '\\' !in s)
    && (forall s | s in pattern && s != "**" :: lib.glob(s, "probe").Some?)
    && exists runs :: Layout(lib, pattern, path, runs)
  }

  /**
    What a selection is: a relative slash path that some valid include pattern can be laid
    along, and no valid exclude pattern can.
   */
  lemma {:induction false} SelectedExactly(lib: Library, selector: Selector, path: Path)
    ensures Selected(lib, selector, path) <==>
              && path != [] && (forall s | s in path :: s !in {"", ".", ".."} && '\\' !in s)
              && (exists p | p in selector.includes :: Describes(lib, p, path))
              && (forall p | p in selector.excludes :: !Describes(lib, p, path))
  {
    hide MatchSegments, Layout;
    if RelativeSlashPath(path) {
      forall p ensures MatchPattern(lib, p, path) <==> Describes(lib, p, path) {
        MatchMeansLayout(lib, p, path);
      }
    }
  }

  /** One pattern after another matches exactly the candidates that fall into two matching parts. */
  lemma {:induction false} MatchConcat(lib: Library, first: Path, second: Path, candidate: Path)
    ensures MatchSegments(lib, first + second, candidate) <==>
            exists k: nat | k <= |candidate| ::
              MatchSegments(lib, first, candidate[..k]) && MatchSegments(lib, second, candidate[k..])
    decreases |first| + |candidate|
  {
    if first == [] {
      assert first + second == second && candidate[0..] == candidate;
      assert MatchSegments(lib, second, candidate) <==>
             MatchSegments(lib, first, candidate[..0]) && MatchSegments(lib, second, candidate[0..]);
    } else {
      var whole := first + second;
      assert whole[0] == first[0] && whole[1..] == first[1..] + second;
      if first[0] == "**" {
        MatchConcat(lib, first[1..], second, candidate);
      }
      if candidate != [] {
        MatchConcat(lib, if first[0] == "**" then first else first[1..], second, candidate[1..]);
      }
      if MatchSegments(lib, whole, candidate) {
        if first[0] == "**" && MatchSegments(lib, whole[1..], candidate) {
          var k: nat :| k <= |candidate| && MatchSegments(lib, first[1..], candidate[..k]) &&
            MatchSegments(lib, second, candidate[k..]);
          assert MatchSegments(lib, first, candidate[..k]);
        } else {
          var rest := if first[0] == "**" then first else first[1..];
          var k: nat :| k <= |candidate[1..]| && MatchSegments(lib, rest, candidate[1..][..k]) &&
            MatchSegments(lib, second, candidate[1..][k..]);
          assert candidate[..k + 1][1..] == candidate[1..][..k] && candidate[1..][k..] == candidate[k + 1..];
          assert MatchSegments(lib, first, candidate[..k + 1]);
        }
      }
      forall k: nat | k <= |candidate| && MatchSegments(lib, first, candidate[..k]) &&
        MatchSegments(lib, second, candidate[k..])
        ensures MatchSegments(lib, whole, candidate)
      {
        if first[0] == "**" && MatchSegments(lib, first[1..], candidate[..k]) {
        } else {
          assert k > 0;
          var j: nat := k - 1;
          assert candidate[..k][1..] == candidate[1..][..j] && candidate[1..][j..] == candidate[k..];
        }
      }
    }
  }

  /** "**" next to "**" adds nothing. */
  lemma {:induction false} AdjacentDoubleStars(lib: Library, before: Path, after: Path, candidate: Path)
    ensures MatchSegments(lib, before + ["**", "**"] + after, candidate) ==
            MatchSegments(lib, before + ["**"] + after, candidate)
  {
    var two, one := ["**", "**"] + after, ["**"] + after;
    forall rest: Path ensures MatchSegments(lib, two, rest) == MatchSegments(lib, one, rest) {
      DoubleStarTwice(lib, after, rest);
    }
    assert before + ["**", "**"] + after == before + two && before + ["**"] + after == before + one;
    MatchConcat(lib, before, two, candidate);
    MatchConcat(lib, before, one, candidate);
    forall k: nat | k <= |candidate|
      ensures MatchSegments(lib, two, candidate[k..]) == MatchSegments(lib, one, candidate[k..])
    {
    }
  }

  lemma {:induction false} DoubleStarTwice(lib: Library, after: Path, candidate: Path)
    ensures MatchSegments(lib, ["**", "**"] + after, candidate) == MatchSegments(lib, ["**"] + after, candidate)
    decreases |candidate|
  {
    var two, one := ["**", "**"] + after, ["**"] + after;
    assert two[1..] == one && one[1..] == after;
    if candidate != [] {
      DoubleStarTwice(lib, after, candidate[1..]);
    }
  }
}
