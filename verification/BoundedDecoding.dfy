/**
  The bounded decoder of host configurations: `decodeStrictJSON` and
  `validateDecodedTree` in internal/hostprofile/parse.go, beside the unbounded decoder.
 */
module BoundedDecoding {
  import opened Basics
  import opened Json
  import opened JsonLexer
  import opened StrictDecoder
  import Utf8

  const MAXIMUM_CONFIG_DEPTH := 128
  const MAXIMUM_CONFIG_VALUES := 4096
  const MAXIMUM_SCALAR_BYTES := 8192

  predicate ShortText(s: string) {
    |Utf8.Encode(s)| <= MAXIMUM_SCALAR_BYTES
  }

  // ----- What the bounds mean ---------------------------------------------------------

  /** One step from a value to a value directly inside it. */
  datatype Step = Index(i: nat) | Key(k: string)

  function Steps(v: Value): set<Step> {
    match v
    case Arr(items) => set i | 0 <= i < |items| :: Index(i)
    case Obj(members) => set k | k in members :: Key(k)
    case _ => {}
  }

  function Child(v: Value, s: Step): (c: Value)
    requires s in Steps(v)
    ensures c < v
  {
    match s
    case Index(i) => v.items[i]
    case Key(k) => v.members[k]
  }

  /** p leads from v to a value inside it (or to v itself). */
  predicate Place(v: Value, p: seq<Step>)
    decreases |p|
  {
    p == [] || (p[0] in Steps(v) && Place(Child(v, p[0]), p[1..]))
  }

  function At(v: Value, p: seq<Step>): Value
    requires Place(v, p)
    decreases |p|
  {
    if p == [] then v else At(Child(v, p[0]), p[1..])
  }

  /** The addresses of a value and of every value inside it, at any depth. */
  ghost function Places(v: Value): (places: set<seq<Step>>)
    ensures AllPlaces(v, places)
    decreases v, 1
  {
    PlacesAreFinite(v);
    var places :| AllPlaces(v, places);
    places
  }

  ghost predicate AllPlaces(v: Value, places: set<seq<Step>>) {
    forall p :: p in places <==> Place(v, p)
  }

  lemma {:induction false} PlacesAreFinite(v: Value)
    ensures exists places :: AllPlaces(v, places)
    decreases v, 0
  {
    var places := {[]} + set s, p | s in Steps(v) && p in Places(Child(v, s)) :: [s] + p;
    forall p ensures p in places <==> Place(v, p) {
      if p in places && p != [] {
        var s, q :| s in Steps(v) && q in Places(Child(v, s)) && p == [s] + q;
        assert p[1..] == q;
      }
      if Place(v, p) && p != [] {
        assert p == [p[0]] + p[1..] && p[1..] in Places(Child(v, p[0]));
      }
    }
    assert AllPlaces(v, places);
  }

  /** Its own text, or its own keys, are short. */
  predicate ShortHere(v: Value) {
    match v
    case Str(text) => ShortText(text)
    case Obj(members) => forall k | k in members :: ShortText(k)
    case _ => true
  }

  /** Nothing lies too deep and no text is too long, for a value `depth` levels down. */
  ghost predicate Tame(v: Value, depth: nat) {
    forall p | Place(v, p) :: depth + |p| <= MAXIMUM_CONFIG_DEPTH && ShortHere(At(v, p))
  }

  /** Tame, and with `count` values before it at most 4096 in all. */
  ghost predicate Fits(v: Value, depth: nat, count: nat) {
    Tame(v, depth) && count + |Places(v)| <= MAXIMUM_CONFIG_VALUES
  }

  // ----- One more child -----------------------------------------------------------------

  function Under(s: Step, places: set<seq<Step>>): set<seq<Step>> {
    set p | p in places :: [s] + p
  }

  lemma UnderHas(s: Step, places: set<seq<Step>>, p: seq<Step>)
    ensures p in Under(s, places) <==> p != [] && p[0] == s && p[1..] in places
  {
    if p != [] && p[0] == s {
      assert p == [s] + p[1..];
    }
    if p in Under(s, places) {
      var q :| q in places && p == [s] + q;
      assert p[1..] == q;
    }
  }

  lemma {:induction false} UnderCounts(s: Step, places: set<seq<Step>>)
    ensures |Under(s, places)| == |places|
  {
    if places == {} {
      assert Under(s, places) == {};
    } else {
      var p :| p in places;
      UnderCounts(s, places - {p});
      assert Under(s, places) == Under(s, places - {p}) + {[s] + p};
      UnderHas(s, places - {p}, [s] + p);
      assert ([s] + p)[1..] == p;
    }
  }

  /** The larger value has exactly one more child. */
  ghost predicate Grown(small: Value, large: Value, s: Step, child: Value) {
    && s !in Steps(small) && Steps(large) == Steps(small) + {s}
    && (forall t | t in Steps(small) :: Child(large, t) == Child(small, t))
    && Child(large, s) == child
  }

  lemma GrownAt(small: Value, large: Value, s: Step, child: Value, p: seq<Step>)
    requires Grown(small, large, s, child)
    ensures Place(large, p) <==> Place(small, p) || (p != [] && p[0] == s && Place(child, p[1..]))
    ensures Place(small, p) && p != [] ==> p[0] != s && At(large, p) == At(small, p)
    ensures p != [] && p[0] == s && Place(child, p[1..]) ==> At(large, p) == At(child, p[1..])
  {
  }

  lemma {:induction false} GrownPlaces(small: Value, large: Value, s: Step, child: Value)
    requires Grown(small, large, s, child)
    ensures |Places(large)| == |Places(small)| + |Places(child)|
  {
    var others := Under(s, Places(child));
    forall p ensures p in Places(large) <==> p in Places(small) + others {
      GrownAt(small, large, s, child, p);
      UnderHas(s, Places(child), p);
    }
    forall p ensures !(p in Places(small) && p in others) {
      GrownAt(small, large, s, child, p);
    }
    assert Places(large) == Places(small) + others;
    UnderCounts(s, Places(child));
  }

  lemma {:induction false} GrownTame(small: Value, large: Value, s: Step, child: Value, depth: nat)
    requires Grown(small, large, s, child)
    requires ShortHere(large) ==> ShortHere(small)
    ensures Tame(large, depth) <==> ShortHere(large) && Tame(small, depth) && Tame(child, depth + 1)
  {
    if Tame(large, depth) {
      assert Place(large, []) && ShortHere(At(large, []));
      forall p | Place(small, p) ensures depth + |p| <= MAXIMUM_CONFIG_DEPTH && ShortHere(At(small, p)) {
        GrownAt(small, large, s, child, p);
      }
      forall p | Place(child, p) ensures depth + 1 + |p| <= MAXIMUM_CONFIG_DEPTH && ShortHere(At(child, p)) {
        assert ([s] + p)[1..] == p;
        GrownAt(small, large, s, child, [s] + p);
      }
    }
    if ShortHere(large) && Tame(small, depth) && Tame(child, depth + 1) {
      assert Place(small, []);
      forall p | Place(large, p) ensures depth + |p| <= MAXIMUM_CONFIG_DEPTH && ShortHere(At(large, p)) {
        GrownAt(small, large, s, child, p);
      }
    }
  }

  lemma {:induction false} MemberFits(members: map<string, Value>, key: string, child: Value, depth: nat, count: nat)
    requires key !in members
    ensures |Places(Obj(members[key := child]))| == |Places(Obj(members))| + |Places(child)|
    ensures Fits(Obj(members[key := child]), depth, count) <==>
            ShortText(key) && Fits(Obj(members), depth, count) && Fits(child, depth + 1, count + |Places(Obj(members))|)
  {
    var small, large := Obj(members), Obj(members[key := child]);
    assert Grown(small, large, Key(key), child);
    GrownPlaces(small, large, Key(key), child);
    assert ShortHere(large) <==> ShortText(key) && ShortHere(small) by {
      assert key in large.members && forall k | k in members :: k in large.members;
    }
    GrownTame(small, large, Key(key), child, depth);
    assert Place(small, []) && At(small, []) == small;
  }

  lemma {:induction false} ItemFits(items: seq<Value>, child: Value, depth: nat, count: nat)
    ensures |Places(Arr(items + [child]))| == |Places(Arr(items))| + |Places(child)|
    ensures Fits(Arr(items + [child]), depth, count) <==>
            Fits(Arr(items), depth, count) && Fits(child, depth + 1, count + |Places(Arr(items))|)
  {
    var small, large := Arr(items), Arr(items + [child]);
    assert Steps(large) == Steps(small) + {Index(|items|)};
    assert Grown(small, large, Index(|items|), child);
    GrownPlaces(small, large, Index(|items|), child);
    GrownTame(small, large, Index(|items|), child, depth);
  }

  /** A value with nothing inside. */
  lemma {:induction false} LeafFits(v: Value, depth: nat, count: nat)
    requires Steps(v) == {}
    ensures |Places(v)| == 1
    ensures Fits(v, depth, count) <==> depth <= MAXIMUM_CONFIG_DEPTH && count < MAXIMUM_CONFIG_VALUES && ShortHere(v)
  {
    forall p ensures p in Places(v) <==> p in {[]} {
    }
    assert Places(v) == {[]};
    assert Place(v, []) && At(v, []) == v;
  }

  // ----- The validator ------------------------------------------------------------------

  /** The shared `*int`. */
  class Counter {
    var value: nat

    constructor ()
      ensures value == 0
    {
      value := 0;
    }
  }

  /**
    `validateDecodedTree`, handing out map entries in an arbitrary order. Whatever the
    order, it accepts exactly the trees that fit.
   */
  method ValidateTree(tree: Value, depth: nat, count: Counter) returns (ok: bool)
    modifies count
    decreases tree, 1
    ensures ok <==> Fits(tree, depth, old(count.value))
    ensures ok ==> count.value == old(count.value) + |Places(tree)|
  {
    ghost var before := count.value;
    if depth > MAXIMUM_CONFIG_DEPTH || count.value >= MAXIMUM_CONFIG_VALUES {
      NoRoom(tree, depth, before);
      return false;
    }
    count.value := count.value + 1;
    match tree {
      case Obj(_) =>
        ok := ValidateMembers(tree, depth, count, before);
      case Arr(_) =>
        ok := ValidateItems(tree, depth, count, before);
      case Str(text) =>
        LeafFits(tree, depth, before);
        ok := ShortText(text);
      case _ =>
        LeafFits(tree, depth, before);
        ok := true;
    }
  }

  lemma NoRoom(v: Value, depth: nat, count: nat)
    requires depth > MAXIMUM_CONFIG_DEPTH || count >= MAXIMUM_CONFIG_VALUES
    ensures !Fits(v, depth, count)
  {
    assert Place(v, []);
    assert [] in Places(v);
  }

  /** A part of an object fits where the object does. */
  lemma {:induction false} PartFits(part: map<string, Value>, whole: map<string, Value>, depth: nat, count: nat)
    requires part.Keys <= whole.Keys && forall k | k in part :: part[k] == whole[k]
    ensures Fits(Obj(whole), depth, count) ==> Fits(Obj(part), depth, count)
    decreases whole.Keys - part.Keys
  {
    hide Fits, Places;
    var missing := whole.Keys - part.Keys;
    if missing == {} {
      forall k | k in whole ensures k in part {
        assert k !in missing;
      }
      assert part == whole;
    } else {
      var key :| key in missing;
      MemberFits(part, key, whole[key], depth, count);
      PartFits(part[key := whole[key]], whole, depth, count);
    }
  }

  /** The members not in `rest` fit, and `now` values have been counted with them. */
  ghost predicate Validated(whole: map<string, Value>, rest: set<string>, depth: nat, count: nat, now: nat) {
    rest <= whole.Keys && Fits(Obj(whole - rest), depth, count) && now == count + |Places(Obj(whole - rest))|
  }

  lemma NextMemberDecides(whole: map<string, Value>, rest: set<string>, key: string, depth: nat, count: nat, now: nat)
    requires Validated(whole, rest, depth, count, now) && key in rest
    ensures if ShortText(key) && Fits(whole[key], depth + 1, now)
            then Validated(whole, rest - {key}, depth, count, now + |Places(whole[key])|)
            else !Fits(Obj(whole), depth, count)
  {
    hide Fits, Places;
    var seen := whole - rest;
    OneMoreSeen(whole, rest, key);
    MemberFits(seen, key, whole[key], depth, count);
    PartFits(seen[key := whole[key]], whole, depth, count);
  }

  lemma OneMoreSeen(whole: map<string, Value>, rest: set<string>, key: string)
    requires rest <= whole.Keys && key in rest
    ensures whole - (rest - {key}) == (whole - rest)[key := whole[key]] && key !in whole - rest
  {
  }

  method ValidateMembers(tree: Value, depth: nat, count: Counter, ghost before: nat) returns (ok: bool)
    requires tree.Obj? && depth <= MAXIMUM_CONFIG_DEPTH && before < MAXIMUM_CONFIG_VALUES && count.value == before + 1
    modifies count
    decreases tree, 0
    ensures ok <==> Fits(tree, depth, before)
    ensures ok ==> count.value == before + |Places(tree)|
  {
    hide Fits, Places;
    var rest := tree.members.Keys;
    assert tree.members - rest == map[];
    LeafFits(Obj(map[]), depth, before);
    while rest != {}
      invariant Validated(tree.members, rest, depth, before, count.value)
    {
      var key :| key in rest;
      NextMemberDecides(tree.members, rest, key, depth, before, count.value);
      if !ShortText(key) {
        return false;
      }
      ok := ValidateTree(tree.members[key], depth + 1, count);
      if !ok {
        return false;
      }
      rest := rest - {key};
    }
    assert tree.members - rest == tree.members;
    ok := true;
  }

  lemma {:induction false} PrefixFits(items: seq<Value>, n: nat, depth: nat, count: nat)
    requires n <= |items|
    ensures Fits(Arr(items), depth, count) ==> Fits(Arr(items[..n]), depth, count)
    decreases |items| - n
  {
    hide Fits, Places;
    if n == |items| {
      assert items[..n] == items;
    } else {
      assert items[..n + 1] == items[..n] + [items[n]];
      ItemFits(items[..n], items[n], depth, count);
      PrefixFits(items, n + 1, depth, count);
    }
  }

  lemma NextItemDecides(items: seq<Value>, i: nat, depth: nat, count: nat)
    requires i < |items| && Fits(Arr(items[..i]), depth, count)
    ensures var now := count + |Places(Arr(items[..i]))|;
            if Fits(items[i], depth + 1, now) then
              Fits(Arr(items[..i + 1]), depth, count) &&
                count + |Places(Arr(items[..i + 1]))| == now + |Places(items[i])|
            else !Fits(Arr(items), depth, count)
  {
    hide Fits, Places;
    assert items[..i + 1] == items[..i] + [items[i]];
    ItemFits(items[..i], items[i], depth, count);
    PrefixFits(items, i + 1, depth, count);
  }

  method ValidateItems(tree: Value, depth: nat, count: Counter, ghost before: nat) returns (ok: bool)
    requires tree.Arr? && depth <= MAXIMUM_CONFIG_DEPTH && before < MAXIMUM_CONFIG_VALUES && count.value == before + 1
    modifies count
    decreases tree, 0
    ensures ok <==> Fits(tree, depth, before)
    ensures ok ==> count.value == before + |Places(tree)|
  {
    hide Fits, Places;
    LeafFits(Arr([]), depth, before);
    var i := 0;
    while i < |tree.items|
      invariant 0 <= i <= |tree.items|
      invariant Fits(Arr(tree.items[..i]), depth, before) && count.value == before + |Places(Arr(tree.items[..i]))|
    {
      NextItemDecides(tree.items, i, depth, before);
      ok := ValidateTree(tree.items[i], depth + 1, count);
      if !ok {
        return false;
      }
      i := i + 1;
    }
    assert tree.items[..i] == tree.items;
    ok := true;
  }

  // ----- The bounded decoder ----------------------------------------------------------------

  /** The strict decoder's result, kept only when it fits. */
  ghost function Bounded(step: StrictDecoder.Step, depth: nat, count: nat): StrictDecoder.Step {
    match step
    case None => None
    case Some((value, rest)) => if Fits(value, depth, count) then step else None
  }

  /** What an object loop still has to read cannot undo a part that does not fit. */
  lemma {:induction false} ObjectKeepsPart(tokens: seq<Token>, members: map<string, Value>, depth: nat, count: nat)
    requires !Fits(Obj(members), depth, count)
    ensures Bounded(DecodeMembers(tokens, members), depth, count) == None
    decreases |tokens|
  {
    hide Fits, Places;
    if tokens != [] && tokens[0] != CloseBrace {
      var start := MemberStart(tokens, members);
      if start.Some? {
        var child := Decode(start.value.1);
        if child.Some? {
          MemberFits(members, start.value.0, child.value.0, depth, count);
          ObjectKeepsPart(child.value.1, members[start.value.0 := child.value.0], depth, count);
        }
      }
    }
  }

  lemma {:induction false} ArrayKeepsPart(tokens: seq<Token>, items: seq<Value>, depth: nat, count: nat)
    requires !Fits(Arr(items), depth, count)
    ensures Bounded(DecodeItems(tokens, items), depth, count) == None
    decreases |tokens|
  {
    hide Fits, Places;
    if tokens != [] && tokens[0] != CloseBracket {
      var separated := Separated(tokens, items == []);
      if separated.Some? {
        var child := Decode(separated.value);
        if child.Some? {
          ItemFits(items, child.value.0, depth, count);
          ArrayKeepsPart(child.value.1, items + [child.value.0], depth, count);
        }
      }
    }
  }

  /** `decodeJSONValue`: the strict decoder's answer, refused exactly when it does not fit. */
  method DecodeBoundedValue(stream: TokenStream, depth: nat, count: Counter) returns (r: Option<Value>)
    modifies stream, count
    decreases |stream.rest|, 0
    ensures match Bounded(Decode(old(stream.rest)), depth, old(count.value))
            case None => r.None?
            case Some((value, rest)) =>
              r == Some(value) && stream.rest == rest && count.value == old(count.value) + |Places(value)|
  {
    hide Fits, Places;
    ghost var before := count.value;
    if depth > MAXIMUM_CONFIG_DEPTH || count.value >= MAXIMUM_CONFIG_VALUES {
      ghost var step := Decode(stream.rest);
      if step.Some? {
        NoRoom(step.value.0, depth, before);
      }
      return None;
    }
    count.value := count.value + 1;
    var token := stream.Next();
    if token.None? {
      return None;
    }
    match token.value {
      case Text(s) => r := if ShortText(s) then Some(Str(s)) else None;
      case Number(literal) => r := Some(Num(literal));
      case True => r := Some(Bool(true));
      case False => r := Some(Bool(false));
      case Nil => r := Some(Null);
      case OpenBrace =>
        r := DecodeBoundedObject(stream, depth, count, before);
        return;
      case OpenBracket =>
        r := DecodeBoundedArray(stream, depth, count, before);
        return;
      case _ =>
        return None;
    }
    LeafFits(Decode(old(stream.rest)).value.0, depth, before);
  }

  method DecodeBoundedObject(stream: TokenStream, depth: nat, count: Counter, ghost before: nat)
    returns (r: Option<Value>)
    requires depth <= MAXIMUM_CONFIG_DEPTH && before < MAXIMUM_CONFIG_VALUES && count.value == before + 1
    modifies stream, count
    decreases |stream.rest|, 2
    ensures match Bounded(DecodeMembers(old(stream.rest), map[]), depth, before)
            case None => r.None?
            case Some((value, rest)) =>
              r == Some(value) && stream.rest == rest && count.value == before + |Places(value)|
  {
    hide Fits, Places;
    var members: map<string, Value> := map[];
    LeafFits(Obj(members), depth, before);
    var more := stream.More();
    while more
      invariant |stream.rest| <= |old(stream.rest)|
      invariant DecodeMembers(stream.rest, members) == DecodeMembers(old(stream.rest), map[])
      invariant Fits(Obj(members), depth, before) && count.value == before + |Places(Obj(members))|
      invariant more <==> stream.rest != [] && stream.rest[0] != CloseBrace && stream.rest[0] != CloseBracket
      decreases |stream.rest|
    {
      var next := DecodeBoundedMember(stream, depth, count, members, before);
      if next.None? {
        return None;
      }
      members := next.value;
      more := stream.More();
    }
    var closing := stream.Next();
    if closing != Some(CloseBrace) {
      return None;
    }
    return Some(Obj(members));
  }

  /** One turn of the object loop. */
  method DecodeBoundedMember(stream: TokenStream, depth: nat, count: Counter, members: map<string, Value>,
                             ghost before: nat) returns (next: Option<map<string, Value>>)
    requires stream.rest != [] && stream.rest[0] != CloseBrace
    requires Fits(Obj(members), depth, before) && count.value == before + |Places(Obj(members))|
    modifies stream, count
    decreases |stream.rest|, 0
    ensures next.None? ==> Bounded(DecodeMembers(old(stream.rest), members), depth, before) == None
    ensures next.Some? ==> |stream.rest| < |old(stream.rest)| && Fits(Obj(next.value), depth, before)
    ensures next.Some? ==> DecodeMembers(stream.rest, next.value) == DecodeMembers(old(stream.rest), members)
    ensures next.Some? ==> count.value == before + |Places(Obj(next.value))|
  {
    hide Fits, Places;
    ghost var tokens := stream.rest;
    var key := MemberKey(stream, members);
    if key.None? {
      return None;
    }
    ghost var after := stream.rest;
    if MemberRefused(key.value, after, members, depth, before) {
      RefusedMember(tokens, members, key.value, after, depth, before);
    }
    if !ShortText(key.value) {
      return None;
    }
    if Decode(after).Some? {
      MemberFits(members, key.value, Decode(after).value.0, depth, before);
    }
    var value := DecodeBoundedValue(stream, depth + 1, count);
    if value.None? {
      return None;
    }
    next := Some(members[key.value := value.value]);
  }

  /** Separator, key not seen before, colon. */
  method MemberKey(stream: TokenStream, members: map<string, Value>) returns (key: Option<string>)
    modifies stream
    ensures match MemberStart(old(stream.rest), members)
            case None => key.None?
            case Some((text, after)) => key == Some(text) && stream.rest == after
  {
    var separated := stream.Separate(members == map[]);
    if !separated {
      return None;
    }
    var token := stream.Next();
    if token.None? || !token.value.Text? || token.value.text in members {
      return None;
    }
    var colon := stream.Next();
    if colon != Some(Colon) {
      return None;
    }
    key := Some(token.value.text);
  }

  /** A member whose key is too long, or whose value does not fit, is refused for good. */
  lemma RefusedMember(tokens: seq<Token>, members: map<string, Value>, key: string, after: seq<Token>, depth: nat,
                      count: nat)
    requires tokens != [] && tokens[0] != CloseBrace && MemberStart(tokens, members) == Some((key, after))
    requires MemberRefused(key, after, members, depth, count)
    ensures Bounded(DecodeMembers(tokens, members), depth, count) == None
  {
    hide Fits, Places;
    var child := Decode(after);
    if child.Some? {
      MemberFits(members, key, child.value.0, depth, count);
      ObjectKeepsPart(child.value.1, members[key := child.value.0], depth, count);
    }
  }

  ghost predicate MemberRefused(key: string, after: seq<Token>, members: map<string, Value>, depth: nat, count: nat) {
    !ShortText(key) || Bounded(Decode(after), depth + 1, count + |Places(Obj(members))|) == None
  }

  method DecodeBoundedArray(stream: TokenStream, depth: nat, count: Counter, ghost before: nat)
    returns (r: Option<Value>)
    requires depth <= MAXIMUM_CONFIG_DEPTH && before < MAXIMUM_CONFIG_VALUES && count.value == before + 1
    modifies stream, count
    decreases |stream.rest|, 2
    ensures match Bounded(DecodeItems(old(stream.rest), []), depth, before)
            case None => r.None?
            case Some((value, rest)) =>
              r == Some(value) && stream.rest == rest && count.value == before + |Places(value)|
  {
    hide Fits, Places;
    var items: seq<Value> := [];
    LeafFits(Arr(items), depth, before);
    var more := stream.More();
    while more
      invariant |stream.rest| <= |old(stream.rest)|
      invariant DecodeItems(stream.rest, items) == DecodeItems(old(stream.rest), [])
      invariant Fits(Arr(items), depth, before) && count.value == before + |Places(Arr(items))|
      invariant more <==> stream.rest != [] && stream.rest[0] != CloseBrace && stream.rest[0] != CloseBracket
      decreases |stream.rest|
    {
      var next := DecodeBoundedItem(stream, depth, count, items, before);
      if next.None? {
        return None;
      }
      items := next.value;
      more := stream.More();
    }
    var closing := stream.Next();
    if closing != Some(CloseBracket) {
      return None;
    }
    return Some(Arr(items));
  }

  /** One turn of the array loop. */
  method DecodeBoundedItem(stream: TokenStream, depth: nat, count: Counter, items: seq<Value>, ghost before: nat)
    returns (next: Option<seq<Value>>)
    requires stream.rest != [] && stream.rest[0] != CloseBracket
    requires Fits(Arr(items), depth, before) && count.value == before + |Places(Arr(items))|
    modifies stream, count
    decreases |stream.rest|, 1
    ensures next.None? ==> Bounded(DecodeItems(old(stream.rest), items), depth, before) == None
    ensures next.Some? ==> |stream.rest| < |old(stream.rest)| && Fits(Arr(next.value), depth, before)
    ensures next.Some? ==> DecodeItems(stream.rest, next.value) == DecodeItems(old(stream.rest), items)
    ensures next.Some? ==> count.value == before + |Places(Arr(next.value))|
  {
    hide Fits, Places;
    var separated := stream.Separate(items == []);
    if !separated {
      return None;
    }
    ghost var child := Decode(stream.rest);
    if child.Some? {
      ItemFits(items, child.value.0, depth, before);
      if !Fits(Arr(items + [child.value.0]), depth, before) {
        ArrayKeepsPart(child.value.1, items + [child.value.0], depth, before);
      }
    }
    var value := DecodeBoundedValue(stream, depth + 1, count);
    if value.None? {
      return None;
    }
    next := Some(items + [value.value]);
  }

  // ----- The refinement ------------------------------------------------------------------------

  /** `decodeStrictJSON`. */
  method DecodeStrictJSON(document: string) returns (r: Option<Value>)
    ensures r == (if DecodeOne(document).Some? && Fits(DecodeOne(document).value, 0, 0)
                  then DecodeOne(document) else None)
  {
    var tokens := Lex(document);
    if tokens.None? {
      return None;
    }
    var stream := new TokenStream(tokens.value);
    var count := new Counter();
    r := DecodeBoundedValue(stream, 0, count);
    if r.Some? && stream.rest != [] {
      return None;
    }
  }

  /**
    The bounded decoder refines the strict one: it accepts a document exactly when the
    strict decoder does and the validator accepts the tree, and it returns that tree.
   */
  method DecodeTwice(document: string) returns (bounded: Option<Value>, strict: Option<Value>, valid: bool)
    ensures bounded.Some? <==> strict.Some? && valid
    ensures bounded.Some? ==> bounded == strict
  {
    bounded := DecodeStrictJSON(document);
    strict := DecodeOne(document);
    valid := false;
    if strict.Some? {
      var count := new Counter();
      valid := ValidateTree(strict.value, 0, count);
    }
  }
}
