/** First-difference comparison of number sequences: Go's `slices.Compare` and `strings.Compare`. */
module LexOrder {
  predicate Less(a: seq<int>, b: seq<int>)
    decreases |a|
  {
    b != [] && (a == [] || a[0] < b[0] || (a[0] == b[0] && Less(a[1..], b[1..])))
  }

  lemma {:induction false} LessTransitive(a: seq<int>, b: seq<int>, c: seq<int>)
    requires Less(a, b) && Less(b, c)
    ensures Less(a, c)
    decreases |a|
  {
    if a != [] && a[0] == b[0] == c[0] {
      LessTransitive(a[1..], b[1..], c[1..]);
    }
  }

  lemma {:induction false} LessTotal(a: seq<int>, b: seq<int>)
    ensures a == b || Less(a, b) || Less(b, a)
    ensures !(Less(a, b) && Less(b, a)) && (Less(a, b) ==> a != b)
    decreases |a|
  {
    if a != [] && b != [] && a[0] == b[0] {
      LessTotal(a[1..], b[1..]);
      assert a == [a[0]] + a[1..] && b == [b[0]] + b[1..];
    }
  }

  /** Less means: equal up to some place, and smaller there (or over there). */
  lemma {:induction false} LessMeansFirstDifference(a: seq<int>, b: seq<int>)
    ensures Less(a, b) <==> exists k: nat | k <= |a| && k < |b| ::
              a[..k] == b[..k] && (k == |a| || a[k] < b[k])
    decreases |a|
  {
    if Less(a, b) {
      var k := FirstDifference(a, b);
      assert a[..k] == b[..k];
    }
    if k: nat :| k <= |a| && k < |b| && a[..k] == b[..k] && (k == |a| || a[k] < b[k]) {
      if k > 0 {
        assert a[0] == a[..k][0] == b[..k][0] == b[0];
        var j: nat := k - 1;
        assert a[1..][..j] == a[..k][1..] == b[..k][1..] == b[1..][..j];
        LessMeansFirstDifference(a[1..], b[1..]);
      }
    }
  }

  lemma {:induction false} FirstDifference(a: seq<int>, b: seq<int>) returns (k: nat)
    requires Less(a, b)
    ensures k <= |a| && k < |b| && a[..k] == b[..k] && (k == |a| || a[k] < b[k])
    decreases |a|
  {
    if a == [] || a[0] < b[0] {
      k := 0;
    } else {
      var j := FirstDifference(a[1..], b[1..]);
      k := j + 1;
      assert a[..k] == [a[0]] + a[1..][..j] && b[..k] == [b[0]] + b[1..][..j];
    }
  }

  /** Unicode scalars of a text. */
  function Codes(s: string): (r: seq<int>)
    ensures |r| == |s|
  {
    seq(|s|, i requires 0 <= i < |s| => s[i] as int)
  }

  lemma CodesInjective(a: string, b: string)
    requires Codes(a) == Codes(b)
    ensures a == b
  {
    assert |Codes(a)| == |a| && |Codes(b)| == |b|;
    forall i | 0 <= i < |a| ensures a[i] == b[i] {
      assert Codes(a)[i] == a[i] as int && Codes(b)[i] == b[i] as int;
    }
  }

  // ----- Sorting -----------------------------------------------------------------------------

  /** Strictly ascending by a key. */
  predicate SortedBy<T>(items: seq<T>, key: T -> seq<int>) {
    forall i, j | 0 <= i < j < |items| :: Less(key(items[i]), key(items[j]))
  }

  predicate DistinctBy<T>(items: seq<T>, key: T -> seq<int>) {
    forall i, j | 0 <= i < j < |items| :: key(items[i]) != key(items[j])
  }

  lemma HasMember<T>(a: seq<T>)
    ensures a != [] ==> exists e :: e in a
  {
    if a != [] {
      assert a[0] in a;
    }
  }

  lemma FirstIsFirst<T>(a: seq<T>, b: seq<T>, key: T -> seq<int>)
    requires SortedBy(a, key) && a != [] && b != [] && b[0] in a
    ensures b[0] == a[0] || Less(key(a[0]), key(b[0]))
  {
    var i :| 0 <= i < |a| && a[i] == b[0];
    assert i > 0 ==> Less(key(a[0]), key(a[i]));
  }

  lemma RestAlike<T>(a: seq<T>, b: seq<T>, key: T -> seq<int>)
    requires a != [] && b != [] && a[0] == b[0] && SortedBy(a, key) && forall e | e in a :: e in b
    ensures forall e | e in a[1..] :: e in b[1..]
  {
    forall e | e in a[1..] ensures e in b[1..] {
      var i :| 0 <= i < |a[1..]| && a[1..][i] == e;
      assert Less(key(a[0]), key(a[i + 1]));
      LessTotal(key(a[0]), key(a[i + 1]));
      assert e in b && e != b[0];
      assert b == [b[0]] + b[1..];
    }
  }

  /** Sorted without ties, a collection has only one order. */
  lemma {:induction false} SortedUnique<T>(a: seq<T>, b: seq<T>, key: T -> seq<int>)
    requires SortedBy(a, key) && SortedBy(b, key) && forall e :: e in a <==> e in b
    ensures a == b
    decreases |a|
  {
    if a == [] {
      HasMember(b);
    } else {
      assert a[0] in b;
      FirstIsFirst(a, b, key);
      FirstIsFirst(b, a, key);
      LessTotal(key(a[0]), key(b[0]));
      assert a[0] == b[0];
      RestAlike(a, b, key);
      RestAlike(b, a, key);
      SortedUnique(a[1..], b[1..], key);
      assert a == [a[0]] + a[1..] && b == [b[0]] + b[1..];
    }
  }

  /** All items from `at` on come after the new one, if the one there does not come before it. */
  lemma {:induction false} PlaceFound<T>(sorted: seq<T>, item: T, at: nat, key: T -> seq<int>)
    requires SortedBy(sorted, key) && at <= |sorted| && forall x | x in sorted :: key(x) != key(item)
    requires at < |sorted| ==> !Less(key(sorted[at]), key(item))
    ensures forall i | at <= i < |sorted| :: Less(key(item), key(sorted[i]))
  {
    if at < |sorted| {
      assert sorted[at] in sorted;
      LessTotal(key(item), key(sorted[at]));
      forall i | at < i < |sorted| ensures Less(key(item), key(sorted[i])) {
        LessTransitive(key(item), key(sorted[at]), key(sorted[i]));
      }
    }
  }

  lemma {:induction false} Inserted<T>(sorted: seq<T>, item: T, at: nat, key: T -> seq<int>)
    requires SortedBy(sorted, key) && at <= |sorted|
    requires forall i | 0 <= i < at :: Less(key(sorted[i]), key(item))
    requires forall i | at <= i < |sorted| :: Less(key(item), key(sorted[i]))
    ensures SortedBy(sorted[..at] + [item] + sorted[at..], key)
    ensures multiset(sorted[..at] + [item] + sorted[at..]) == multiset(sorted) + multiset{item}
  {
    hide Less;
    var all := sorted[..at] + [item] + sorted[at..];
    forall i, j | 0 <= i < j < |all| ensures Less(key(all[i]), key(all[j])) {
      assert i < at ==> all[i] == sorted[i];
      assert i > at ==> all[i] == sorted[i - 1];
      assert j < at ==> all[j] == sorted[j];
      assert j > at ==> all[j] == sorted[j - 1];
    }
    assert sorted == sorted[..at] + sorted[at..];
  }

  /** `slices.SortFunc` and `sort.Slice`, by a key that no two items share. */
  method SortBy<T(==)>(items: seq<T>, key: T -> seq<int>) returns (sorted: seq<T>)
    requires DistinctBy(items, key)
    ensures SortedBy(sorted, key) && multiset(sorted) == multiset(items)
  {
    hide SortedBy, Less;
    sorted := [];
    NothingSorted(key);
    for n := 0 to |items|
      invariant SortedBy(sorted, key) && multiset(sorted) == multiset(items[..n])
    {
      var at := 0;
      while at < |sorted| && Less(key(sorted[at]), key(items[n]))
        invariant 0 <= at <= |sorted|
        invariant forall i | 0 <= i < at :: Less(key(sorted[i]), key(items[n]))
      {
        at := at + 1;
      }
      NotYetSorted(items, n, sorted, key);
      PlaceFound(sorted, items[n], at, key);
      Inserted(sorted, items[n], at, key);
      assert items[..n + 1] == items[..n] + [items[n]];
      sorted := sorted[..at] + [items[n]] + sorted[at..];
    }
    assert items[..|items|] == items;
  }

  lemma NothingSorted<T>(key: T -> seq<int>)
    ensures SortedBy([], key)
  {
  }

  lemma NotYetSorted<T>(items: seq<T>, n: nat, sorted: seq<T>, key: T -> seq<int>)
    requires DistinctBy(items, key) && n < |items| && multiset(sorted) == multiset(items[..n])
    ensures forall x | x in sorted :: key(x) != key(items[n])
  {
    forall x | x in sorted ensures key(x) != key(items[n]) {
      assert x in multiset(sorted) && x in items[..n];
      var j :| 0 <= j < n && items[j] == x;
    }
  }

  lemma SameMembersOf<T>(a: seq<T>, b: seq<T>)
    requires multiset(a) == multiset(b)
    ensures |a| == |b| && forall x :: x in a <==> x in b
  {
    assert |multiset(a)| == |a| && |multiset(b)| == |b|;
    forall x ensures x in a <==> x in b {
      assert x in multiset(a) <==> x in multiset(b);
    }
  }
}
