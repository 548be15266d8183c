/** `path/filepath` on Unix: Clean, Join and Rel, as far as containment needs them. */
module CleanPaths {
  import opened Basics

  /** A cleaned path: whether it starts with a slash, and its segments. */
  datatype Clean = Clean(rooted: bool, segments: Path)

  function Split(text: string): (r: Path)
    ensures r != [] && forall s | s in r :: '/' !in s
  {
    if text == "" then [""]
    else
      var rest := Split(text[1..]);
      if text[0] == '/' then [""] + rest else [[text[0]] + rest[0]] + rest[1..]
  }

  /** One more segment while cleaning. */
  function Push(rooted: bool, stack: Path, segment: string): Path {
    if segment == "" || segment == "." then stack
    else if segment == ".." then
      if stack != [] && stack[|stack| - 1] != ".." then stack[..|stack| - 1]
      else if rooted then stack
      else stack + [".."]
    else stack + [segment]
  }

  function Reduce(rooted: bool, stack: Path, segments: Path): Path
    decreases |segments|
  {
    if segments == [] then stack else Reduce(rooted, Push(rooted, stack, segments[0]), segments[1..])
  }

  /** `filepath.Clean`, as segments. */
  function CleanText(text: string): Clean {
    var rooted := Absolute(text);
    Clean(rooted, Reduce(rooted, [], Split(text)))
  }

  /** The text of a cleaned path. */
  function Render(c: Clean): string {
    if c.rooted then "/" + Slash(c.segments) else if c.segments == [] then "." else Slash(c.segments)
  }

  function LastSegment(segments: Path): string {
    if segments == [] then ""
    else if segments[|segments| - 1] != "" then segments[|segments| - 1]
    else LastSegment(segments[..|segments| - 1])
  }

  /** `filepath.Base`. */
  function Base(text: string): string {
    if text == "" then "." else if LastSegment(Split(text)) == "" then "/" else LastSegment(Split(text))
  }

  /** `filepath.IsAbs`. */
  predicate Absolute(text: string) {
    text != "" && text[0] == '/'
  }

  lemma {:induction false} PlainSplit(text: string)
    requires '/' !in text
    ensures Split(text) == [text]
  {
    if text != "" {
      assert text[0] in text;
      PlainSplit(text[1..]);
      assert [text[0]] + text[1..] == text;
    }
  }

  lemma {:induction false} PlainBase(text: string)
    requires '/' !in text && text != ""
    ensures Base(text) == text
  {
    PlainSplit(text);
  }

  predicate Ordinary(segment: string) {
    segment != "" && segment != "." && '/' !in segment
  }

  lemma {:induction false} ReduceOrdinary(rooted: bool, stack: Path, segments: Path)
    requires (forall s | s in stack :: Ordinary(s)) && forall s | s in segments :: '/' !in s
    ensures forall s | s in Reduce(rooted, stack, segments) :: Ordinary(s)
    decreases |segments|
  {
    if segments != [] {
      assert segments[0] in segments;
      ReduceOrdinary(rooted, Push(rooted, stack, segments[0]), segments[1..]);
    }
  }

  /** Comparing cleaned texts is comparing cleaned paths. */
  lemma {:induction false} RenderInjective(a: string, b: string)
    ensures Render(CleanText(a)) == Render(CleanText(b)) <==> CleanText(a) == CleanText(b)
  {
    var x, y := CleanText(a), CleanText(b);
    ReduceOrdinary(x.rooted, [], Split(a));
    ReduceOrdinary(y.rooted, [], Split(b));
    if Render(x) == Render(y) {
      RenderStarts(x);
      RenderStarts(y);
      if x.rooted {
        assert Render(x)[1..] == Slash(x.segments) && Render(y)[1..] == Slash(y.segments);
      }
      if x.segments != [] && y.segments != [] {
        SlashInjective(x.segments, y.segments);
      }
    }
  }

  lemma {:induction false} RenderStarts(c: Clean)
    requires forall s | s in c.segments :: Ordinary(s)
    ensures Render(c) != "" && (Render(c)[0] == '/' <==> c.rooted)
    ensures c.segments != [] ==> Slash(c.segments) != "" && Slash(c.segments) != "."
  {
    if c.segments != [] {
      var first := c.segments[0];
      assert first in c.segments;
      SlashUncons(c.segments);
      assert first[0] in first;
      assert Slash(c.segments)[0] == Slash(c.segments)[..|first|][0];
      if |c.segments| > 1 && |first| == 1 {
        assert |Slash(c.segments)| > 1;
      }
    }
  }

  // ----- Containment ------------------------------------------------------------------------

  function CommonPrefix(a: Path, b: Path): (n: nat)
    ensures n <= |a| && n <= |b| && a[..n] == b[..n]
    ensures n < |a| && n < |b| ==> a[n] != b[n]
  {
    if a != [] && b != [] && a[0] == b[0] then
      assert forall m: nat | m <= |a[1..]| :: a[..m + 1] == [a[0]] + a[1..][..m];
      assert forall m: nat | m <= |b[1..]| :: b[..m + 1] == [b[0]] + b[1..][..m];
      1 + CommonPrefix(a[1..], b[1..])
    else 0
  }

  function Ups(n: nat): (r: Path)
    ensures |r| == n && forall i | 0 <= i < n :: r[i] == ".."
  {
    seq(n, i => "..")
  }

  /** `filepath.Rel` on cleaned paths; no segments stands for ".". */
  function Rel(base: Clean, target: Clean): Option<Path> {
    if base == target then Some([])
    else if base.rooted != target.rooted then None
    else
      var n := CommonPrefix(base.segments, target.segments);
      if n < |base.segments| && base.segments[n] == ".." then None
      else Some(Ups(|base.segments| - n) + target.segments[n..])
  }

  /** `pathWithin` in load.go, and the body of `withinAny` in evaluator.go. */
  predicate PathWithin(root: string, target: string) {
    var relative := Rel(CleanText(root), CleanText(target));
    relative.Some? && (relative.value == [] || relative.value[0] != "..")
  }

  lemma {:induction false} PrefixIsCommon(a: Path, b: Path)
    requires a <= b
    ensures CommonPrefix(a, b) == |a|
  {
    assert forall i | 0 <= i < |a| :: a[i] == b[i];
  }

  /** The target's segments continue the root's, downwards. */
  predicate Below(root: Clean, target: Clean) {
    && root.rooted == target.rooted && root.segments <= target.segments
    && (root.segments == target.segments || target.segments[|root.segments|] != "..")
  }

  lemma {:induction false} WithinMeansBelow(root: string, target: string)
    ensures PathWithin(root, target) <==> Below(CleanText(root), CleanText(target))
  {
    var b, t := CleanText(root), CleanText(target);
    var n := CommonPrefix(b.segments, t.segments);
    if Below(b, t) {
      PrefixIsCommon(b.segments, t.segments);
      assert t.segments[..n] == b.segments;
    }
    if n < |b.segments| {
      assert (Ups(|b.segments| - n) + t.segments[n..])[0] == "..";
    } else {
      assert b.segments[..n] == b.segments && Ups(0) + t.segments[n..] == t.segments[n..];
    }
  }

  lemma WithinItself(path: string)
    ensures PathWithin(path, path)
  {
  }

  lemma {:induction false} WithinComposes(a: string, b: string, c: string)
    requires PathWithin(a, b) && PathWithin(b, c)
    ensures PathWithin(a, c)
  {
    WithinMeansBelow(a, b);
    WithinMeansBelow(b, c);
    WithinMeansBelow(a, c);
    var x, y, z := CleanText(a).segments, CleanText(b).segments, CleanText(c).segments;
    assert |x| < |y| ==> z[|x|] == y[|x|];
  }

  // ----- Joining ----------------------------------------------------------------------------

  lemma {:induction false} SplitJoin(a: string, b: string)
    ensures Split(a + "/" + b) == Split(a) + Split(b)
  {
    if a == "" {
      assert a + "/" + b == "/" + b && ("/" + b)[1..] == b;
    } else {
      assert (a + "/" + b)[1..] == a[1..] + "/" + b;
      SplitJoin(a[1..], b);
    }
  }

  lemma {:induction false} ReduceConcat(rooted: bool, stack: Path, a: Path, b: Path)
    ensures Reduce(rooted, stack, a + b) == Reduce(rooted, Reduce(rooted, stack, a), b)
    decreases |a|
  {
    if a == [] {
      assert a + b == b;
    } else {
      assert (a + b)[1..] == a[1..] + b;
      ReduceConcat(rooted, Push(rooted, stack, a[0]), a[1..], b);
    }
  }

  /** Plain segments pile up. */
  lemma {:induction false} ReducePlain(rooted: bool, stack: Path, segments: Path)
    requires forall s | s in segments :: s != "" && s != "." && s != ".."
    ensures Reduce(rooted, stack, segments) == stack + segments
    decreases |segments|
  {
    if segments != [] {
      assert segments[0] in segments && forall s | s in segments[1..] :: s in segments;
      ReducePlain(rooted, stack + [segments[0]], segments[1..]);
      assert stack + [segments[0]] + segments[1..] == stack + segments;
    }
  }

  /** `filepath.Join(root, entry)` for a relative slash path without dots lies below the root. */
  lemma {:induction false} JoinDescends(root: string, entry: string)
    requires root != "" && forall s | s in Split(entry) :: s != "" && s != "." && s != ".."
    ensures CleanText(root + "/" + entry) == Clean(CleanText(root).rooted, CleanText(root).segments + Split(entry))
    ensures PathWithin(root, root + "/" + entry)
  {
    var rooted := CleanText(root).rooted;
    SplitJoin(root, entry);
    ReduceConcat(rooted, [], Split(root), Split(entry));
    ReducePlain(rooted, CleanText(root).segments, Split(entry));
    assert Split(entry)[0] in Split(entry);
    WithinMeansBelow(root, root + "/" + entry);
  }
}
