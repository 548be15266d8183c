/** Small datatypes shared by every component. */
module Basics {
  datatype Option<+T> = None | Some(value: T)

  datatype Result<+T, +E> = Ok(value: T) | Err(error: E) {
    function ToOption(): Option<T> {
      if Ok? then Some(value) else None
    }
  }

  /** Go's int64: arithmetic written in this type is checked for overflow. */
  newtype int64 = x: int | -0x8000_0000_0000_0000 <= x < 0x8000_0000_0000_0000

  type Byte = b: int | 0 <= b < 256

  function Min(a: nat, b: nat): nat {
    if a < b then a else b
  }

  /** A relative path, split at its slashes. */
  type Path = seq<string>

  /** The slash-joined text of a path. */
  function Slash(path: Path): string {
    if path == [] then "" else if |path| == 1 then path[0] else path[0] + "/" + Slash(path[1..])
  }

  /** What the kernel allows as the name of a directory entry. */
  predicate EntryName(name: string) {
    name != "" && name != "." && name != ".." && '/' !in name && '\0' !in name
  }

  lemma {:induction false} SlashUncons(path: Path)
    requires path != [] && forall s | s in path :: '/' !in s
    ensures |Slash(path)| >= |path[0]| && Slash(path)[..|path[0]|] == path[0]
    ensures |path| == 1 ==> Slash(path) == path[0]
    ensures |path| > 1 ==> |Slash(path)| > |path[0]| && Slash(path)[|path[0]|] == '/' &&
                           Slash(path)[|path[0]| + 1..] == Slash(path[1..])
  {
  }

  lemma {:induction false} FirstSegmentFits(left: Path, right: Path)
    requires left != [] && right != []
    requires forall s | s in left :: '/' !in s
    requires forall s | s in right :: '/' !in s
    requires Slash(left) == Slash(right)
    ensures |right[0]| <= |left[0]|
  {
    if |left[0]| < |right[0]| {
      assert right[0][|left[0]|] in right[0];
      SlashUncons(left);
      SlashUncons(right);
    }
  }

  /** Joining with slashes loses nothing when the segments hold no slash. */
  lemma {:induction false} SlashInjective(left: Path, right: Path)
    requires left != [] && right != []
    requires forall s | s in left :: '/' !in s
    requires forall s | s in right :: '/' !in s
    requires Slash(left) == Slash(right)
    ensures left == right
  {
    FirstSegmentFits(left, right);
    FirstSegmentFits(right, left);
    SlashUncons(left);
    SlashUncons(right);
    assert left[0] == right[0];
    if |left| > 1 {
      SlashInjective(left[1..], right[1..]);
    }
    assert left == [left[0]] + left[1..] && right == [right[0]] + right[1..];
  }

  predicate Least(numbers: set<int>, n: int) {
    n in numbers && forall m | m in numbers :: n <= m
  }

  lemma EmptyOrNot(numbers: set<int>)
    ensures numbers == {} || exists n :: n in numbers
  {
    if forall n :: n !in numbers {
      assert numbers == {};
    }
  }

  lemma {:induction false} LeastOf(numbers: set<int>)
    requires numbers != {}
    ensures exists n :: Least(numbers, n)
  {
    EmptyOrNot(numbers);
    var n :| n in numbers;
    var rest := numbers - {n};
    if rest == {} {
      forall m | m in numbers && m != n ensures m in rest {
      }
      assert Least(numbers, n);
    } else {
      LeastOf(rest);
      var other :| Least(rest, other);
      assert forall m | m in numbers :: m == n || m in rest;
      assert Least(numbers, if n < other then n else other);
    }
  }
}
