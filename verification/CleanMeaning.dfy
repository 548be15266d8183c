/** `filepath.Clean` and `filepath.Base` by what they mean: where a path leads, and the last name in it. */
module CleanMeaning {
  import opened Basics
  import opened CleanPaths

  /** Directories without links: the one above each, and those below it by name. */
  datatype Tree<!D> = Tree(above: D -> D, below: (D, string) -> D)

  ghost predicate Lawful<D(!new)>(tree: Tree<D>) {
    forall d, name :: tree.above(tree.below(d, name)) == d
  }

  function Move<D>(tree: Tree<D>, d: D, segment: string): D {
    if segment == "" || segment == "." then d
    else if segment == ".." then tree.above(d)
    else tree.below(d, segment)
  }

  function Lead<D>(tree: Tree<D>, d: D, segments: Path): D
    decreases |segments|
  {
    if segments == [] then d else Lead(tree, Move(tree, d, segments[0]), segments[1..])
  }

  lemma {:induction false} LeadSnoc<D>(tree: Tree<D>, d: D, segments: Path, segment: string)
    ensures Lead(tree, d, segments + [segment]) == Move(tree, Lead(tree, d, segments), segment)
    decreases |segments|
  {
    if segments == [] {
      assert [segment][1..] == [];
    } else {
      assert (segments + [segment])[1..] == segments[1..] + [segment];
      LeadSnoc(tree, Move(tree, d, segments[0]), segments[1..], segment);
    }
  }

  /** No empty segment, no ".", and ".." only at the start of a path that is not rooted. */
  predicate Tidy(rooted: bool, segments: Path) {
    && (forall s | s in segments :: Ordinary(s))
    && forall i | 0 <= i < |segments| && segments[i] == ".." :: !rooted && forall j | 0 <= j < i :: segments[j] == ".."
  }

  lemma {:induction false} PushLeads<D(!new)>(tree: Tree<D>, start: D, rooted: bool, stack: Path, segment: string)
    requires Lawful(tree) && (rooted ==> tree.above(start) == start) && Tidy(rooted, stack) && '/' !in segment
    ensures Tidy(rooted, Push(rooted, stack, segment))
    ensures Lead(tree, start, Push(rooted, stack, segment)) == Move(tree, Lead(tree, start, stack), segment)
  {
    if stack != [] {
      var n := |stack| - 1;
      assert stack == stack[..n] + [stack[n]] && stack[n] in stack;
      LeadSnoc(tree, start, stack[..n], stack[n]);
    }
    LeadSnoc(tree, start, stack, segment);
  }

  lemma {:induction false} ReduceLeads<D(!new)>(tree: Tree<D>, start: D, rooted: bool, stack: Path, segments: Path)
    requires Lawful(tree) && (rooted ==> tree.above(start) == start) && Tidy(rooted, stack)
    requires forall s | s in segments :: '/' !in s
    ensures Tidy(rooted, Reduce(rooted, stack, segments))
    ensures Lead(tree, start, Reduce(rooted, stack, segments)) == Lead(tree, Lead(tree, start, stack), segments)
    decreases |segments|
  {
    if segments != [] {
      assert segments[0] in segments;
      PushLeads(tree, start, rooted, stack, segments[0]);
      ReduceLeads(tree, start, rooted, Push(rooted, stack, segments[0]), segments[1..]);
    }
  }

  /** In every tree, from every place, the cleaned path leads where the given one leads. */
  lemma {:induction false} CleanLeadsThere<D(!new)>(tree: Tree<D>, start: D, text: string)
    requires Lawful(tree) && (Absolute(text) ==> tree.above(start) == start)
    ensures Lead(tree, start, CleanText(text).segments) == Lead(tree, start, Split(text))
  {
    ReduceLeads(tree, start, Absolute(text), [], Split(text));
  }

  // ----- Only one tidy path leads there --------------------------------------------------

  /** So many directories up, then down by these names. */
  datatype Place = Place(ups: nat, names: Path)

  const HERE := Place(0, [])

  /** The tree in which nothing but a directory's name leads to it; nothing is above the top. */
  function FreeTree(top: bool): Tree<Place> {
    Tree(p => Above(top, p), (p: Place, name) => Place(p.ups, p.names + [name]))
  }

  function Above(top: bool, p: Place): Place {
    if p.names != [] then Place(p.ups, p.names[..|p.names| - 1])
    else if top then p
    else Place(p.ups + 1, [])
  }

  lemma {:induction false} FreeIsLawful(top: bool)
    ensures Lawful(FreeTree(top)) && (top ==> FreeTree(top).above(HERE) == HERE)
  {
    forall p: Place, name: string
      ensures FreeTree(top).above(FreeTree(top).below(p, name)) == p
    {
      assert (p.names + [name])[..|p.names|] == p.names;
    }
  }

  lemma StartsHere(top: bool)
    ensures Lead(FreeTree(top), HERE, []) == HERE
  {
  }

  lemma MovedPlace(top: bool, p: Place, segment: string)
    requires Ordinary(segment) && (segment == ".." ==> !top && p.names == [])
    ensures Move(FreeTree(top), p, segment) ==
            if segment == ".." then Place(p.ups + 1, []) else Place(p.ups, p.names + [segment])
  {
  }

  lemma {:induction false} TidyShowsItsPlace(rooted: bool, segments: Path)
    requires Tidy(rooted, segments)
    ensures var p := Lead(FreeTree(rooted), HERE, segments); segments == Ups(p.ups) + p.names && ".." !in p.names
    decreases |segments|
  {
    hide Lead, FreeTree;
    if segments == [] {
      StartsHere(rooted);
    } else {
      var n := |segments| - 1;
      var before := Lead(FreeTree(rooted), HERE, segments[..n]);
      assert segments == segments[..n] + [segments[n]] && segments[n] in segments;
      TidyShowsItsPlace(rooted, segments[..n]);
      LeadSnoc(FreeTree(rooted), HERE, segments[..n], segments[n]);
      assert before.names != [] ==> segments[before.ups] == before.names[0] && before.names[0] in before.names;
      MovedPlace(rooted, before, segments[n]);
      if segments[n] == ".." {
        assert segments == Ups(before.ups + 1);
      }
    }
  }

  /**
    `filepath.Clean`: the one tidy path, rooted like the given one, that leads to the same
    place where nothing else does.
   */
  lemma {:induction false} CleanExactly(text: string, c: Clean)
    ensures c == CleanText(text) <==>
              && c.rooted == Absolute(text) && Tidy(c.rooted, c.segments)
              && Lead(FreeTree(c.rooted), HERE, c.segments) == Lead(FreeTree(c.rooted), HERE, Split(text))
  {
    var rooted := Absolute(text);
    FreeIsLawful(rooted);
    ReduceLeads(FreeTree(rooted), HERE, rooted, [], Split(text));
    TidyShowsItsPlace(rooted, CleanText(text).segments);
    if c.rooted == rooted && Tidy(rooted, c.segments) {
      TidyShowsItsPlace(rooted, c.segments);
    }
  }

  // ----- Splitting, and the last name ------------------------------------------------------

  lemma {:induction false} SlashCons(c: char, segments: Path)
    requires segments != []
    ensures Slash([[c] + segments[0]] + segments[1..]) == [c] + Slash(segments)
    ensures Slash([""] + segments) == "/" + Slash(segments)
  {
    assert ([""] + segments)[1..] == segments;
    if |segments| > 1 {
      assert ([[c] + segments[0]] + segments[1..])[1..] == segments[1..];
    }
  }

  /** Splitting at the slashes loses nothing. */
  lemma {:induction false} SplitExactly(text: string)
    ensures Slash(Split(text)) == text
  {
    if text != "" {
      SplitExactly(text[1..]);
      SlashCons(text[0], Split(text[1..]));
      assert text == [text[0]] + text[1..];
    }
  }

  lemma {:induction false} SplitSlash(segments: Path)
    requires segments != [] && forall s | s in segments :: '/' !in s
    ensures Split(Slash(segments)) == segments
  {
    PlainSplit(segments[0]);
    if |segments| > 1 {
      SplitJoin(segments[0], Slash(segments[1..]));
      SplitSlash(segments[1..]);
    }
  }

  /** Cleaning a cleaned text changes nothing. */
  lemma {:induction false} CleanAgain(text: string)
    ensures CleanText(Render(CleanText(text))) == CleanText(text)
  {
    hide Render, FreeTree, Lawful, Tidy, Lead;
    var c := CleanText(text);
    FreeIsLawful(c.rooted);
    ReduceLeads(FreeTree(c.rooted), HERE, c.rooted, [], Split(text));
    TidyIsOrdinary(c.rooted, c.segments);
    RenderStarts(c);
    SplitRendered(c);
    RenderedLeads(FreeTree(c.rooted), HERE, c);
    CleanExactly(Render(c), c);
  }

  lemma TidyIsOrdinary(rooted: bool, segments: Path)
    requires Tidy(rooted, segments)
    ensures forall s | s in segments :: Ordinary(s)
  {
  }

  lemma {:induction false} SplitRendered(c: Clean)
    requires forall s | s in c.segments :: Ordinary(s)
    ensures Split(Render(c)) == (if c.segments == [] then (if c.rooted then ["", ""] else ["."])
                                 else if c.rooted then [""] + c.segments else c.segments)
  {
    if c.segments == [] {
      PlainSplit(".");
      PlainSplit("");
      SplitJoin("", "");
      assert "" + "/" + "" == "/";
    } else {
      SplitSlash(c.segments);
      SplitJoin("", Slash(c.segments));
      assert "" + "/" + Slash(c.segments) == "/" + Slash(c.segments);
    }
  }

  lemma RenderedLeads<D>(tree: Tree<D>, d: D, c: Clean)
    requires Split(Render(c)) == (if c.segments == [] then (if c.rooted then ["", ""] else ["."])
                                  else if c.rooted then [""] + c.segments else c.segments)
    ensures Lead(tree, d, Split(Render(c))) == Lead(tree, d, c.segments)
  {
    hide Render, Split;
    assert ([""] + c.segments)[1..] == c.segments;
    assert ["", ""][1..] == [""] && [""][1..] == [] && ["."][1..] == [];
  }

  predicate AllSlashes(text: string) {
    forall c | c in text :: c == '/'
  }

  /** base is the last name in the text: up to trailing slashes, nothing but a slash or the start before it. */
  predicate LastName(text: string, before: string, base: string, after: string) {
    && text == before + base + after && AllSlashes(after)
    && base != "" && '/' !in base && (before == "" || before[|before| - 1] == '/')
  }

  lemma {:induction false} SlashSnoc(segments: Path, last: string)
    requires segments != []
    ensures Slash(segments + [last]) == Slash(segments) + "/" + last
  {
    assert (segments + [last])[1..] == segments[1..] + [last];
    if |segments| > 1 {
      SlashSnoc(segments[1..], last);
    } else {
      assert segments[1..] + [last] == [last];
    }
  }

  lemma {:induction false} LastSegmentIs(segments: Path)
    requires segments != [] && forall s | s in segments :: '/' !in s
    ensures LastSegment(segments) == "" ==> AllSlashes(Slash(segments))
    ensures LastSegment(segments) != "" ==>
              exists before, after :: LastName(Slash(segments), before, LastSegment(segments), after)
    decreases |segments|
  {
    var n := |segments| - 1;
    var init, last := segments[..n], segments[n];
    assert segments == init + [last] && last in segments;
    if n > 0 {
      SlashSnoc(init, last);
      if last == "" {
        LastSegmentIs(init);
        if LastSegment(init) != "" {
          var before, after :| LastName(Slash(init), before, LastSegment(init), after);
          assert LastName(Slash(segments), before, LastSegment(init), after + "/");
        }
      } else {
        assert LastName(Slash(segments), Slash(init) + "/", last, "");
      }
    } else {
      assert last != "" ==> LastName(Slash(segments), "", last, "");
    }
  }

  /** The last name, a slash if there are only slashes, "." for the empty text. */
  ghost predicate BaseName(text: string, base: string) {
    if AllSlashes(text) then base == if text == "" then "." else "/"
    else exists before, after :: LastName(text, before, base, after)
  }

  lemma {:induction false} BaseExactly(text: string)
    ensures BaseName(text, Base(text))
  {
    SplitExactly(text);
    LastSegmentIs(Split(text));
    var last := LastSegment(Split(text));
    if last != "" {
      var before, after :| LastName(text, before, last, after);
      assert text[|before|] == last[0] && text[|before|] in text && last[0] in last;
      assert !AllSlashes(text) && Base(text) == last;
    }
  }
}
