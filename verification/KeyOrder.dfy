/** The order of printed object keys (`compareUTF16` in internal/canonical/canonical.go). */
module KeyOrder {
  import opened LexOrder

  /** UTF-16 code units of one Unicode scalar, RFC 2781 section 2.1. */
  function Units(c: char): (r: seq<int>)
    ensures |r| > 0
  {
    var v := c as int;
    if v < 0x1_0000 then [v] else [0xD800 + (v - 0x1_0000) / 0x400, 0xDC00 + (v - 0x1_0000) % 0x400]
  }

  function Utf16(s: string): seq<int> {
    if s == "" then [] else Units(s[0]) + Utf16(s[1..])
  }

  predicate KeyLess(a: string, b: string) {
    Less(Utf16(a), Utf16(b))
  }

  /**
    The rank of a scalar: first everything below the surrogates, then the
    supplementary planes, then U+E000 to U+FFFF.
   */
  function Rank(c: char): int {
    var v := c as int;
    if v < 0xD800 then v else if v >= 0x1_0000 then v - 0x1_0000 + 0xD800 else v + 0x10_0000
  }

  function Ranks(s: string): (r: seq<int>)
    ensures |r| == |s|
  {
    seq(|s|, i requires 0 <= i < |s| => Rank(s[i]))
  }

  lemma RankInjective(a: char, b: char)
    requires Rank(a) == Rank(b)
    ensures a == b
  {
  }

  /** No scalar's units begin another's, and the first difference goes by rank. */
  lemma UnitsDiffer(a: char, b: char)
    requires a != b
    ensures Units(a)[0] != Units(b)[0] || (|Units(a)| == 2 && |Units(b)| == 2 && Units(a)[1] != Units(b)[1])
    ensures Rank(a) < Rank(b) <==>
            Units(a)[0] < Units(b)[0] ||
            (Units(a)[0] == Units(b)[0] && |Units(a)| == 2 && |Units(b)| == 2 && Units(a)[1] < Units(b)[1])
  {
    var x, y := a as int, b as int;
    if x >= 0x1_0000 && y >= 0x1_0000 {
      var p, q := x - 0x1_0000, y - 0x1_0000;
      assert p == 0x400 * (p / 0x400) + p % 0x400 && q == 0x400 * (q / 0x400) + q % 0x400;
    }
  }

  lemma {:induction false} LessAfterCommon(common: seq<int>, a: seq<int>, b: seq<int>)
    ensures Less(common + a, common + b) == Less(a, b)
  {
    if common == [] {
      assert common + a == a && common + b == b;
    } else {
      assert (common + a)[1..] == common[1..] + a && (common + b)[1..] == common[1..] + b;
      LessAfterCommon(common[1..], a, b);
    }
  }

  /** Different first scalars decide, by their units as by their ranks. */
  lemma {:induction false} HeadsDecide(a: char, b: char, s: seq<int>, t: seq<int>)
    requires a != b
    ensures Rank(a) != Rank(b) && (Less(Units(a) + s, Units(b) + t) <==> Rank(a) < Rank(b))
  {
    var u, v := Units(a), Units(b);
    UnitsDiffer(a, b);
    if Rank(a) == Rank(b) {
      RankInjective(a, b);
    }
    if u[0] == v[0] {
      assert u + s == [u[0]] + ([u[1]] + s) && v + t == [v[0]] + ([v[1]] + t);
      LessAfterCommon([u[0]], [u[1]] + s, [v[1]] + t);
    }
  }

  lemma RanksUncons(a: string)
    requires a != ""
    ensures Ranks(a) != [] && Ranks(a)[0] == Rank(a[0]) && Ranks(a)[1..] == Ranks(a[1..])
  {
  }

  /** Comparing code units is comparing the first differing scalars by rank. */
  lemma {:induction false} KeyLessIsRankOrder(a: string, b: string)
    ensures KeyLess(a, b) <==> Less(Ranks(a), Ranks(b))
    decreases |a|
  {
    hide Units, Rank, Ranks;
    RanksOfNothing(a);
    RanksOfNothing(b);
    if a != "" && b != "" {
      RanksUncons(a);
      RanksUncons(b);
      if a[0] == b[0] {
        LessAfterCommon(Units(a[0]), Utf16(a[1..]), Utf16(b[1..]));
        KeyLessIsRankOrder(a[1..], b[1..]);
      } else {
        HeadsDecide(a[0], b[0], Utf16(a[1..]), Utf16(b[1..]));
      }
    }
  }

  lemma RanksOfNothing(a: string)
    ensures (Ranks(a) == [] <==> a == "") && (Utf16(a) == [] <==> a == "")
  {
  }

  lemma {:induction false} Utf16Injective(a: string, b: string)
    requires Utf16(a) == Utf16(b)
    ensures a == b
  {
    KeyLessIsRankOrder(a, b);
    KeyLessIsRankOrder(b, a);
    LessTotal(Utf16(a), Utf16(b));
    LessTotal(Ranks(a), Ranks(b));
    assert |Ranks(a)| == |a| && |Ranks(b)| == |b|;
    forall i | 0 <= i < |a| ensures a[i] == b[i] {
      assert Ranks(a)[i] == Rank(a[i]) && Ranks(b)[i] == Rank(b[i]);
      RankInjective(a[i], b[i]);
    }
  }

  /** `compareUTF16` is a strict total order, and only identical texts compare equal. */
  lemma {:induction false} KeyOrderIsTotal(a: string, b: string, c: string)
    ensures a == b || KeyLess(a, b) || KeyLess(b, a)
    ensures !(KeyLess(a, b) && KeyLess(b, a)) && !KeyLess(a, a)
    ensures KeyLess(a, b) && KeyLess(b, c) ==> KeyLess(a, c)
  {
    LessTotal(Utf16(a), Utf16(b));
    LessTotal(Utf16(a), Utf16(a));
    if Utf16(a) == Utf16(b) {
      Utf16Injective(a, b);
    }
    if KeyLess(a, b) && KeyLess(b, c) {
      LessTransitive(Utf16(a), Utf16(b), Utf16(c));
    }
  }

  // ----- Sorting keys ------------------------------------------------------------------

  ghost predicate Ascending(keys: seq<string>) {
    forall i, j | 0 <= i < j < |keys| :: KeyLess(keys[i], keys[j])
  }

  function KeySet(keys: seq<string>): set<string> {
    set k | k in keys
  }

  lemma KeySetConcat(a: seq<string>, b: seq<string>)
    ensures KeySet(a + b) == KeySet(a) + KeySet(b)
  {
  }

  /** An ascending listing is the only one of its keys. */
  lemma {:induction false} AscendingUnique(a: seq<string>, b: seq<string>)
    requires Ascending(a) && Ascending(b) && KeySet(a) == KeySet(b)
    ensures a == b
  {
    forall k ensures k in a <==> k in b {
      assert k in KeySet(a) <==> k in KeySet(b);
    }
    SortedUnique(a, b, Utf16);
  }

  lemma {:induction false} LeastKey(keys: set<string>) returns (least: string)
    requires keys != {}
    ensures least in keys && forall k | k in keys :: k == least || KeyLess(least, k)
    decreases |keys|
  {
    hide KeyLess;
    var k :| k in keys;
    if keys == {k} {
      least := k;
    } else {
      var other := LeastKey(keys - {k});
      KeyOrderIsTotal(k, other, "");
      least := if KeyLess(k, other) then k else other;
      forall x | x in keys ensures x == least || KeyLess(least, x) {
        KeyOrderIsTotal(k, other, x);
      }
    }
  }

  ghost predicate Sorting(keys: set<string>, sorted: seq<string>) {
    Ascending(sorted) && KeySet(sorted) == keys
  }

  lemma {:induction false} SortingExists(keys: set<string>)
    ensures exists sorted :: Sorting(keys, sorted)
    decreases |keys|
  {
    hide Ascending, KeySet, KeyLess;
    if keys == {} {
      NothingSorted();
      assert Sorting(keys, []);
    } else {
      var least := LeastKey(keys);
      var others := keys - {least};
      SortingExists(others);
      var rest :| Sorting(others, rest);
      AscendingCons(least, rest);
      assert {least} + others == keys;
      assert Sorting(keys, [least] + rest);
    }
  }

  lemma NothingSorted()
    ensures Ascending([]) && KeySet([]) == {}
  {
  }

  lemma AscendingCons(least: string, rest: seq<string>)
    requires Ascending(rest) && forall k | k in KeySet(rest) :: KeyLess(least, k)
    ensures Ascending([least] + rest) && KeySet([least] + rest) == {least} + KeySet(rest)
  {
    KeySetConcat([least], rest);
    assert KeySet([least]) == {least};
    hide KeyLess;
    forall i | 0 <= i < |rest| ensures KeyLess(least, rest[i]) {
      assert rest[i] in KeySet(rest);
    }
  }

  /** The keys in ascending order. */
  ghost function Sorted(keys: set<string>): (r: seq<string>)
    ensures Ascending(r) && KeySet(r) == keys
  {
    SortingExists(keys);
    var r :| Sorting(keys, r);
    r
  }

  /** `slices.SortFunc(keys, compareUTF16)`: whatever order the keys came in, one result. */
  method SortKeys(keys: seq<string>) returns (sorted: seq<string>)
    requires forall i, j | 0 <= i < j < |keys| :: keys[i] != keys[j]
    ensures sorted == Sorted(KeySet(keys))
  {
    UnitsApart(keys);
    sorted := SortBy(keys, Utf16);
    SameMembersOf(sorted, keys);
    assert KeySet(sorted) == KeySet(keys);
    AscendingUnique(sorted, Sorted(KeySet(keys)));
  }

  lemma UnitsApart(keys: seq<string>)
    requires forall i, j | 0 <= i < j < |keys| :: keys[i] != keys[j]
    ensures DistinctBy(keys, Utf16)
  {
    forall i, j | 0 <= i < j < |keys| ensures Utf16(keys[i]) != Utf16(keys[j]) {
      if Utf16(keys[i]) == Utf16(keys[j]) {
        Utf16Injective(keys[i], keys[j]);
      }
    }
  }
}
