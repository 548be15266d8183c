/** Which tokens spell a value, as RFC 8259 sections 4 and 5 put it, and that the decoder reads exactly those. */
module Spelling {
  import opened Basics
  import opened Json
  import opened JsonLexer
  import opened StrictDecoder

  // ----- Spellings -----------------------------------------------------------------------------

  /** One part after the other, with commas between them. */
  function Chain(parts: seq<seq<Token>>, first: bool): seq<Token> {
    if parts == [] then [] else (if first then [] else [Comma]) + parts[0] + Chain(parts[1..], false)
  }

  /** A key, a colon and the spelling of the value. */
  function Pairs(keys: seq<string>, parts: seq<seq<Token>>): (r: seq<seq<Token>>)
    requires |keys| == |parts|
    ensures |r| == |keys|
  {
    seq(|keys|, i requires 0 <= i < |keys| => [Text(keys[i]), Colon] + parts[i])
  }

  ghost predicate SpellsItems(parts: seq<seq<Token>>, items: seq<Value>, whole: Value)
    requires forall i | 0 <= i < |items| :: items[i] < whole
    decreases whole, 0
  {
    |parts| == |items| && forall i | 0 <= i < |items| :: Spells(parts[i], items[i])
  }

  /** Each member once, in whatever order. */
  ghost predicate SpellsMembers(keys: seq<string>, parts: seq<seq<Token>>, members: map<string, Value>, whole: Value)
    requires forall k | k in members :: members[k] < whole
    decreases whole, 0
  {
    && |keys| == |parts|
    && (forall i, j | 0 <= i < j < |keys| :: keys[i] != keys[j])
    && (forall k :: k in keys <==> k in members)
    && forall i | 0 <= i < |keys| :: keys[i] in members && Spells(parts[i], members[keys[i]])
  }

  ghost predicate Spells(tokens: seq<Token>, v: Value)
    decreases v, 1
  {
    match v
    case Null => tokens == [Nil]
    case Bool(flag) => tokens == [if flag then True else False]
    case Num(literal) => tokens == [Number(literal)]
    case Str(text) => tokens == [Text(text)]
    case Arr(items) =>
      exists parts :: SpellsItems(parts, items, v) && tokens == [OpenBracket] + Chain(parts, true) + [CloseBracket]
    case Obj(members) =>
      exists keys, parts :: SpellsMembers(keys, parts, members, v) &&
                            tokens == [OpenBrace] + Chain(Pairs(keys, parts), true) + [CloseBrace]
  }

  lemma ChainUncons(parts: seq<seq<Token>>, i: nat, first: bool)
    requires i < |parts|
    ensures Chain(parts[i..], first) == (if first then [] else [Comma]) + parts[i] + Chain(parts[i + 1..], false)
  {
    assert parts[i..][1..] == parts[i + 1..];
  }

  lemma {:induction false} ChainSnoc(parts: seq<seq<Token>>, last: seq<Token>, first: bool)
    ensures Chain(parts + [last], first) ==
            Chain(parts, first) + (if first && parts == [] then [] else [Comma]) + last
    decreases |parts|
  {
    if parts == [] {
      assert [last][1..] == [];
    } else {
      assert (parts + [last])[1..] == parts[1..] + [last];
      ChainSnoc(parts[1..], last, false);
    }
  }

  /** No spelling begins with a token that ends or separates. */
  lemma SpelledBegins(tokens: seq<Token>, v: Value)
    requires Spells(tokens, v)
    ensures tokens != [] && tokens[0] !in {CloseBrace, CloseBracket, Comma, Colon}
  {
  }

  // ----- What is spelled is decoded ----------------------------------------------------------

  lemma {:induction false} SpelledDecodes(tokens: seq<Token>, v: Value, rest: seq<Token>)
    requires Spells(tokens, v)
    ensures Decode(tokens + rest) == Some((v, rest))
    decreases v, 1, 0
  {
    match v {
      case Arr(items) =>
        var parts :| SpellsItems(parts, items, v) && tokens == [OpenBracket] + Chain(parts, true) + [CloseBracket];
        Bracketed(OpenBracket, Chain(parts, true), CloseBracket, rest);
        ItemsDecode(parts, v, 0, rest);
        assert parts[0..] == parts && items[..0] == [];
      case Obj(members) =>
        var keys, parts :| SpellsMembers(keys, parts, members, v) &&
          tokens == [OpenBrace] + Chain(Pairs(keys, parts), true) + [CloseBrace];
        Bracketed(OpenBrace, Chain(Pairs(keys, parts), true), CloseBrace, rest);
        MembersDecode(keys, parts, v, 0, rest);
        assert Pairs(keys, parts)[0..] == Pairs(keys, parts) && Taken(members, keys, 0) == map[];
      case _ =>
        assert (tokens + rest)[1..] == rest;
    }
  }

  lemma Bracketed(start: Token, inner: seq<Token>, end: Token, rest: seq<Token>)
    ensures var ts := [start] + inner + [end] + rest;
            ts[0] == start && ts[1..] == inner + ([end] + rest)
  {
  }

  lemma {:induction false} ItemsDecode(parts: seq<seq<Token>>, v: Value, i: nat, rest: seq<Token>)
    requires v.Arr? && SpellsItems(parts, v.items, v) && i <= |parts|
    ensures DecodeItems(Chain(parts[i..], i == 0) + ([CloseBracket] + rest), v.items[..i]) == Some((v, rest))
    decreases v, 0, |parts| - i
  {
    var end := [CloseBracket] + rest;
    if i == |parts| {
      assert Chain(parts[i..], i == 0) + end == end && v.items[..i] == v.items;
    } else {
      SpelledBegins(parts[i], v.items[i]);
      SpelledDecodes(parts[i], v.items[i], Chain(parts[i + 1..], false) + end);
      ChainUncons(parts, i, i == 0);
      ItemStarts(i == 0, parts[i], Chain(parts[i + 1..], false), end);
      ItemsDecode(parts, v, i + 1, rest);
      assert v.items[..i] + [v.items[i]] == v.items[..i + 1];
    }
  }

  lemma ItemStarts(first: bool, tokens: seq<Token>, others: seq<Token>, end: seq<Token>)
    requires tokens != [] && tokens[0] != CloseBracket
    ensures var ts := (if first then [] else [Comma]) + tokens + others + end;
            ts[0] != CloseBracket && Separated(ts, first) == Some(tokens + (others + end))
  {
    var body := tokens + (others + end);
    var ts := (if first then [] else [Comma]) + tokens + others + end;
    if first {
      assert ts == body;
    } else {
      assert ts[1..] == body;
    }
  }

  /** The members under the first i keys. */
  ghost function Taken(members: map<string, Value>, keys: seq<string>, i: nat): map<string, Value>
    requires i <= |keys| && forall k | k in keys :: k in members
  {
    map k | k in keys[..i] :: members[k]
  }

  lemma {:induction false} MembersDecode(keys: seq<string>, parts: seq<seq<Token>>, v: Value, i: nat, rest: seq<Token>)
    requires v.Obj? && SpellsMembers(keys, parts, v.members, v) && i <= |keys|
    ensures DecodeMembers(Chain(Pairs(keys, parts)[i..], i == 0) + ([CloseBrace] + rest), Taken(v.members, keys, i)) ==
            Some((v, rest))
    decreases v, 0, |keys| - i
  {
    var end := [CloseBrace] + rest;
    if i == |keys| {
      assert Chain(Pairs(keys, parts)[i..], i == 0) + end == end && end[1..] == rest;
      assert keys[..i] == keys && Taken(v.members, keys, i) == v.members;
    } else {
      var others := Chain(Pairs(keys, parts)[i + 1..], false);
      SpelledDecodes(parts[i], v.members[keys[i]], others + end);
      ChainUncons(Pairs(keys, parts), i, i == 0);
      OneMoreTaken(v.members, keys, i);
      MembersRegroup(i == 0, keys[i], parts[i], others, end);
      OneMember(keys[i], v.members[keys[i]], i == 0, parts[i], others + end, Taken(v.members, keys, i));
      MembersDecode(keys, parts, v, i + 1, rest);
    }
  }

  lemma MembersRegroup(first: bool, key: string, tokens: seq<Token>, others: seq<Token>, end: seq<Token>)
    ensures (if first then [] else [Comma]) + ([Text(key), Colon] + tokens) + others + end ==
            (if first then [] else [Comma]) + ([Text(key), Colon] + (tokens + (others + end)))
  {
  }

  /** One turn of the object loop. */
  lemma OneMember(key: string, value: Value, first: bool, tokens: seq<Token>, more: seq<Token>,
                  members: map<string, Value>)
    requires key !in members && (members == map[] <==> first)
    requires Decode(tokens + more) == Some((value, more))
    ensures DecodeMembers((if first then [] else [Comma]) + ([Text(key), Colon] + (tokens + more)), members) ==
            DecodeMembers(more, members[key := value])
  {
    MemberStarts(key, first, tokens + more, members);
  }

  lemma MemberStarts(key: string, first: bool, body: seq<Token>, members: map<string, Value>)
    requires key !in members && (members == map[] <==> first)
    ensures var ts := (if first then [] else [Comma]) + ([Text(key), Colon] + body);
            ts[0] != CloseBrace && MemberStart(ts, members) == Some((key, body))
  {
    var pair := [Text(key), Colon] + body;
    var ts := (if first then [] else [Comma]) + pair;
    assert pair[2..] == body;
    if first {
      assert ts == pair;
    } else {
      assert ts[1..] == pair;
    }
  }

  lemma OneMoreTaken(members: map<string, Value>, keys: seq<string>, i: nat)
    requires i < |keys| && forall k | k in keys :: k in members
    requires forall j, k | 0 <= j < k < |keys| :: keys[j] != keys[k]
    ensures keys[i] !in Taken(members, keys, i) && (Taken(members, keys, i) == map[] <==> i == 0)
    ensures Taken(members, keys, i)[keys[i] := members[keys[i]]] == Taken(members, keys, i + 1)
  {
    if i > 0 {
      assert keys[0] in keys[..i] && keys[0] in Taken(members, keys, i);
    }
    assert keys[..i + 1] == keys[..i] + [keys[i]];
  }

  // ----- What is decoded was spelled ---------------------------------------------------------

  lemma {:induction false} DecodedIsSpelled(tokens: seq<Token>) returns (spelling: seq<Token>)
    requires Decode(tokens).Some?
    ensures tokens == spelling + Decode(tokens).value.1 && Spells(spelling, Decode(tokens).value.0)
    decreases |tokens|, 1
  {
    var (v, rest) := Decode(tokens).value;
    spelling := tokens[..1];
    match tokens[0] {
      case OpenBracket =>
        var parts := ItemsSpelled(tokens[1..], []);
        spelling := [OpenBracket] + Chain(parts, true) + [CloseBracket];
        assert SpellsItems(parts, v.items, v);
        Bracketed(OpenBracket, Chain(parts, true), CloseBracket, rest);
      case OpenBrace =>
        var keys, parts := MembersSpelled(tokens[1..], map[]);
        spelling := [OpenBrace] + Chain(Pairs(keys, parts), true) + [CloseBrace];
        assert SpellsMembers(keys, parts, v.members, v);
        Bracketed(OpenBrace, Chain(Pairs(keys, parts), true), CloseBrace, rest);
      case _ =>
    }
    assert tokens == [tokens[0]] + tokens[1..];
  }

  lemma ChainCons(part: seq<Token>, parts: seq<seq<Token>>, first: bool, end: seq<Token>)
    ensures Chain([part] + parts, first) + end ==
            (if first then [] else [Comma]) + (part + (Chain(parts, false) + end))
  {
    assert ([part] + parts)[1..] == parts;
  }

  lemma SeparatedIs(tokens: seq<Token>, first: bool)
    requires Separated(tokens, first).Some?
    ensures tokens == (if first then [] else [Comma]) + Separated(tokens, first).value
  {
    assert first ==> [] + tokens == tokens;
  }

  lemma {:induction false} ItemsSpelled(tokens: seq<Token>, items: seq<Value>) returns (parts: seq<seq<Token>>)
    requires DecodeItems(tokens, items).Some?
    ensures var (v, rest) := DecodeItems(tokens, items).value;
            && v.Arr? && items <= v.items && |v.items| == |items| + |parts|
            && (forall i | 0 <= i < |parts| :: Spells(parts[i], v.items[|items| + i]))
            && tokens == Chain(parts, items == []) + ([CloseBracket] + rest)
    decreases |tokens|, 2
  {
    hide Spells, Decode, Separated;
    if tokens[0] == CloseBracket {
      parts := [];
      assert tokens == [] + ([CloseBracket] + tokens[1..]);
    } else {
      var ts := Separated(tokens, items == []).value;
      var (value, after) := Decode(ts).value;
      var (v, rest) := DecodeItems(tokens, items).value;
      var part := DecodedIsSpelled(ts);
      var others := ItemsSpelled(after, items + [value]);
      SeparatedIs(tokens, items == []);
      ChainCons(part, others, items == [], [CloseBracket] + rest);
      parts := [part] + others;
      assert v.items[|items|] == (items + [value])[|items|] == value;
    }
  }

  lemma MemberStartIs(tokens: seq<Token>, members: map<string, Value>)
    requires MemberStart(tokens, members).Some?
    ensures var (key, after) := MemberStart(tokens, members).value;
            key !in members &&
            tokens == (if members == map[] then [] else [Comma]) + ([Text(key), Colon] + after)
  {
    SeparatedIs(tokens, members == map[]);
    var ts := Separated(tokens, members == map[]).value;
    assert ts == [ts[0], ts[1]] + ts[2..];
  }

  lemma PairsCons(key: string, keys: seq<string>, part: seq<Token>, parts: seq<seq<Token>>)
    requires |keys| == |parts|
    ensures Pairs([key] + keys, [part] + parts) == [[Text(key), Colon] + part] + Pairs(keys, parts)
  {
  }

  /** The tokens from here to the closing brace spell the members that are not there yet. */
  ghost predicate SpellsOthers(keys: seq<string>, parts: seq<seq<Token>>, before: map<string, Value>,
                               after: map<string, Value>) {
    && |keys| == |parts|
    && (forall i, j | 0 <= i < j < |keys| :: keys[i] != keys[j])
    && (forall k | k in keys :: k !in before)
    && (forall k :: k in after <==> k in before || k in keys)
    && (forall k | k in before :: k in after && after[k] == before[k])
    && (forall i | 0 <= i < |keys| :: keys[i] in after && Spells(parts[i], after[keys[i]]))
  }

  lemma OneOther(key: string, value: Value, part: seq<Token>, keys: seq<string>, parts: seq<seq<Token>>,
                 before: map<string, Value>, after: map<string, Value>)
    requires key !in before && Spells(part, value) && SpellsOthers(keys, parts, before[key := value], after)
    ensures SpellsOthers([key] + keys, [part] + parts, before, after)
  {
    hide Spells;
    assert key in before[key := value];
  }

  lemma {:induction false} MembersSpelled(tokens: seq<Token>, members: map<string, Value>)
    returns (keys: seq<string>, parts: seq<seq<Token>>)
    requires DecodeMembers(tokens, members).Some?
    ensures var (v, rest) := DecodeMembers(tokens, members).value;
            && v.Obj? && SpellsOthers(keys, parts, members, v.members)
            && tokens == Chain(Pairs(keys, parts), members == map[]) + ([CloseBrace] + rest)
    decreases |tokens|, 0
  {
    hide Spells, Decode, MemberStart, SpellsOthers, Chain, Pairs;
    if tokens[0] == CloseBrace {
      keys, parts := [], [];
      NoOthers(members);
      ChainEmpty(members == map[]);
      assert tokens == [] + ([CloseBrace] + tokens[1..]);
    } else {
      var (key, after) := MemberStart(tokens, members).value;
      var (value, more) := Decode(after).value;
      var (v, rest) := DecodeMembers(tokens, members).value;
      var part := DecodedIsSpelled(after);
      var others, otherParts := MembersSpelled(more, members[key := value]);
      MemberStartIs(tokens, members);
      OneOther(key, value, part, others, otherParts, members, v.members);
      SameLength(others, otherParts, members[key := value], v.members);
      PairsCons(key, others, part, otherParts);
      ChainCons([Text(key), Colon] + part, Pairs(others, otherParts), members == map[], [CloseBrace] + rest);
      keys, parts := [key] + others, [part] + otherParts;
    }
  }

  lemma ChainEmpty(first: bool)
    ensures Pairs([], []) == [] && Chain([], first) == []
  {
  }

  lemma NoOthers(members: map<string, Value>)
    ensures SpellsOthers([], [], members, members)
  {
  }

  lemma SameLength(keys: seq<string>, parts: seq<seq<Token>>, before: map<string, Value>, after: map<string, Value>)
    requires SpellsOthers(keys, parts, before, after)
    ensures |keys| == |parts|
  {
  }

  // ----- The law -----------------------------------------------------------------------------

  /** The decoder reads a value exactly where the tokens spell one, each key once. */
  lemma {:induction false} DecodesExactly(tokens: seq<Token>, v: Value, rest: seq<Token>)
    ensures Decode(tokens) == Some((v, rest)) <==>
            exists spelling :: tokens == spelling + rest && Spells(spelling, v)
  {
    if Decode(tokens) == Some((v, rest)) {
      var spelling := DecodedIsSpelled(tokens);
    }
    if spelling :| tokens == spelling + rest && Spells(spelling, v) {
      SpelledDecodes(spelling, v, rest);
    }
  }

  /** No tokens spell two values. */
  lemma {:induction false} SpellsOneValue(tokens: seq<Token>, v: Value, w: Value)
    requires Spells(tokens, v) && Spells(tokens, w)
    ensures v == w
  {
    SpelledDecodes(tokens, v, []);
    SpelledDecodes(tokens, w, []);
  }

  /** A document is accepted exactly if all its tokens together spell the value. */
  lemma {:induction false} AcceptsExactly(document: string, v: Value)
    ensures DecodeOne(document) == Some(v) <==> Lex(document).Some? && Spells(Lex(document).value, v)
  {
    if Lex(document).Some? {
      var tokens := Lex(document).value;
      DecodesExactly(tokens, v, []);
      if Spells(tokens, v) {
        assert tokens == tokens + [];
      }
      if spelling :| tokens == spelling + [] && Spells(spelling, v) {
        assert spelling == tokens;
      }
    }
  }
}
