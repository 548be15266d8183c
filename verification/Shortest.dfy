/** The canonical text is the shortest of all that decode to the value (RFC 8785 section 3.2). */
module Shortest {
  import opened Basics
  import opened Canonical
  import opened Integers
  import opened Json
  import opened JsonLexer
  import opened KeyOrder
  import opened Lexemes
  import LexOrder
  import opened RoundTrip
  import opened Spelling
  import opened StrictDecoder

  // ----- Texts -----------------------------------------------------------------------------------

  /** The same, but for hexadecimal digits that the second writes in lower case. */
  predicate Alike(s: string, canonical: string) {
    |s| == |canonical| &&
    forall i | 0 <= i < |s| ::
      s[i] == canonical[i] || ('A' <= s[i] <= 'F' && canonical[i] as int == s[i] as int + 32)
  }

  lemma {:induction false} CodeOf(unit: string, c: char)
    requires Coded(unit, c as int) && c < ' '
    ensures Nibble(unit[2]) == 0 && Nibble(unit[3]) == 0
    ensures Nibble(unit[4]) == c as int / 16 && Nibble(unit[5]) == c as int % 16
  {
    assert Nibble(unit[2]) >= 0 && Nibble(unit[3]) >= 0 && Nibble(unit[4]) >= 0 && Nibble(unit[5]) >= 0;
  }

  lemma DigitAlike(x: char, d: int)
    requires 0 <= d < 16 && Nibble(x) == d
    ensures x == HexDigit(d) || ('A' <= x <= 'F' && HexDigit(d) as int == x as int + 32)
  {
  }

  /** No way of writing a character is shorter than the canonical one, and one as short is alike. */
  lemma {:induction false} ShortestUnit(unit: string, c: char)
    requires Spelled(unit, c)
    ensures |Escape(c)| <= |unit| && (|Escape(c)| == |unit| ==> Alike(unit, Escape(c)))
  {
    if v :| Coded(unit, v) && if High(v) || Low(v) then c as int == 0xFFFD else c as int == v {
      assert |unit| == 6;
      if c < ' ' && |Escape(c)| == 6 {
        CodeOf(unit, c);
        DigitAlike(unit[2], 0);
        DigitAlike(unit[3], 0);
        DigitAlike(unit[4], c as int / 16);
        DigitAlike(unit[5], c as int % 16);
      }
    }
  }

  lemma AlikeJoined(a: string, b: string, x: string, y: string)
    requires Alike(a, x) && Alike(b, y)
    ensures Alike(a + b, x + y)
  {
  }

  lemma {:induction false} ShortestFlat(units: seq<string>, text: string)
    requires |units| == |text| && forall i | 0 <= i < |units| :: Spelled(units[i], text[i])
    ensures |EscapeAll(text)| <= |Flat(units)|
    ensures |EscapeAll(text)| == |Flat(units)| ==> Alike(Flat(units), EscapeAll(text))
  {
    hide Spelled, Escape, Alike;
    if units == [] {
      NothingAlike();
    } else {
      ShortestUnit(units[0], text[0]);
      ShortestFlat(units[1..], text[1..]);
      if |EscapeAll(text)| == |Flat(units)| {
        AlikeJoined(units[0], Flat(units[1..]), Escape(text[0]), EscapeAll(text[1..]));
      }
    }
  }

  lemma NothingAlike()
    ensures Alike("", "")
  {
  }

  /** The canonical spelling of a text is the shortest, and but for capital digits the only one as short. */
  lemma {:induction false} ShortestText(s: string, text: string)
    requires LexText(s + "\"") == Some((text, ""))
    ensures |EscapeAll(text)| <= |s| && (|EscapeAll(text)| == |s| ==> Alike(s, EscapeAll(text)))
  {
    hide Alike, Spelled, LexText;
    TextExactly(s + "\"", text, "");
    var units :| SpelledText(units, text) && s + "\"" == Flat(units) + ("\"" + "");
    assert s == (s + "\"")[..|s|] == Flat(units);
    ShortestFlat(units, text);
  }

  // ----- Tokens ------------------------------------------------------------------------------------

  /** The characters a token takes at least. */
  function Width(token: Token): nat {
    match token
    case Text(text) => |EscapeAll(text)| + 2
    case Number(literal) => |literal|
    case True => 4
    case False => 5
    case Nil => 4
    case _ => 1
  }

  function Widths(tokens: seq<Token>): nat {
    if tokens == [] then 0 else Width(tokens[0]) + Widths(tokens[1..])
  }

  lemma {:induction false} WidthsConcat(a: seq<Token>, b: seq<Token>)
    ensures Widths(a + b) == Widths(a) + Widths(b)
  {
    if a == [] {
      assert a + b == b;
    } else {
      assert (a + b)[1..] == a[1..] + b;
      WidthsConcat(a[1..], b);
    }
  }

  lemma {:induction false} ShortestLexeme(s: string, token: Token, n: nat)
    requires Lexeme(s, token, n)
    ensures Width(token) <= n
  {
    hide Spelled;
    if token.Text? {
      var units :| SpelledText(units, token.text) && s[..n] == "\"" + Flat(units) + "\"";
      ShortestFlat(units, token.text);
      assert |s[..n]| == n;
    }
  }

  lemma {:induction false} ShortestTokens(s: string, tokens: seq<Token>)
    requires Written(s, tokens)
    ensures Widths(tokens) <= |s|
    decreases |tokens|
  {
    hide Lexeme;
    if tokens != [] {
      var k: nat, n: nat :|
        k + n <= |s| && Blank(s[..k]) && Lexeme(s[k..], tokens[0], n) && Written(s[k + n..], tokens[1..]);
      ShortestLexeme(s[k..], tokens[0], n);
      ShortestTokens(s[k + n..], tokens[1..]);
    }
  }

  // ----- Values ------------------------------------------------------------------------------------

  /** The characters of the members under these keys: key, colon and value. */
  ghost function MemberWidths(members: map<string, Value>, keys: seq<string>): nat
    requires forall k | k in keys :: k in members
  {
    if keys == [] then 0
    else MemberWidth(members, keys[0]) + MemberWidths(members, keys[1..])
  }

  ghost function MemberWidth(members: map<string, Value>, key: string): nat
    requires key in members
  {
    |EscapeAll(key)| + 3 + Widths(Tokens(members[key]))
  }

  lemma {:induction false} WithoutOne(members: map<string, Value>, keys: seq<string>, i: nat)
    requires (forall k | k in keys :: k in members) && i < |keys|
    ensures forall k | k in keys[..i] + keys[i + 1..] :: k in members
    ensures MemberWidths(members, keys) ==
            MemberWidth(members, keys[i]) + MemberWidths(members, keys[..i] + keys[i + 1..])
  {
    var others := keys[..i] + keys[i + 1..];
    if i == 0 {
      assert others == keys[1..];
    } else {
      assert others[0] == keys[0] && others[1..] == keys[1..][..i - 1] + keys[1..][i..];
      WithoutOne(members, keys[1..], i - 1);
    }
  }

  /** The order of the members does not matter. */
  lemma {:induction false} AnyOrder(members: map<string, Value>, a: seq<string>, b: seq<string>)
    requires (forall i, j | 0 <= i < j < |a| :: a[i] != a[j]) && forall i, j | 0 <= i < j < |b| :: b[i] != b[j]
    requires (forall k :: k in a <==> k in b) && forall k | k in a :: k in members
    ensures |a| == |b| && MemberWidths(members, a) == MemberWidths(members, b)
    decreases |a|
  {
    if a == [] {
      LexOrder.HasMember(b);
    } else {
      assert a[0] in b;
      var j :| 0 <= j < |b| && b[j] == a[0];
      var others := b[..j] + b[j + 1..];
      WithoutOne(members, b, j);
      SameOthers(a, b, j);
      AnyOrder(members, a[1..], others);
    }
  }

  lemma SameOthers(a: seq<string>, b: seq<string>, j: nat)
    requires (forall i, k | 0 <= i < k < |a| :: a[i] != a[k]) && forall i, k | 0 <= i < k < |b| :: b[i] != b[k]
    requires (forall k :: k in a <==> k in b) && a != [] && j < |b| && b[j] == a[0]
    ensures var others := b[..j] + b[j + 1..];
            (forall i, k | 0 <= i < k < |others| :: others[i] != others[k]) && forall k :: k in a[1..] <==> k in others
  {
    var others := b[..j] + b[j + 1..];
    forall k ensures k in a[1..] <==> k in others {
      assert k in a[1..] <==> (k in a && k != a[0]) by {
        assert a == [a[0]] + a[1..];
      }
      assert k in others <==> (k in b && k != b[j]) by {
        assert b == b[..j] + [b[j]] + b[j + 1..];
      }
    }
  }

  lemma {:induction false} ChainWidths(keys: seq<string>, parts: seq<seq<Token>>, members: map<string, Value>,
                                       first: bool)
    requires |keys| == |parts| && forall k | k in keys :: k in members
    requires forall i | 0 <= i < |keys| :: Widths(parts[i]) == Widths(Tokens(members[keys[i]]))
    ensures Widths(Chain(Pairs(keys, parts), first)) ==
            MemberWidths(members, keys) + |keys| - (if first && keys != [] then 1 else 0)
    decreases |keys|
  {
    hide Tokens;
    if keys != [] {
      var pairs := Pairs(keys, parts);
      var rest := Chain(pairs[1..], false);
      assert pairs[1..] == Pairs(keys[1..], parts[1..]);
      ChainWidths(keys[1..], parts[1..], members, false);
      var comma: seq<Token> := if first then [] else [Comma];
      assert Chain(pairs, first) == comma + pairs[0] + rest;
      WidthsConcat(comma + pairs[0], rest);
      WidthsConcat(comma, pairs[0]);
      PairWidths(keys[0], parts[0]);
    }
  }

  lemma PairWidths(key: string, part: seq<Token>)
    ensures Widths([Text(key), Colon] + part) == |EscapeAll(key)| + 3 + Widths(part)
  {
    WidthsConcat([Text(key), Colon], part);
    assert [Text(key), Colon][1..] == [Colon];
  }

  lemma {:induction false} ItemWidths(a: seq<seq<Token>>, b: seq<seq<Token>>, first: bool)
    requires |a| == |b| && forall i | 0 <= i < |a| :: Widths(a[i]) == Widths(b[i])
    ensures Widths(Chain(a, first)) == Widths(Chain(b, first))
    decreases |a|
  {
    if a != [] {
      var comma: seq<Token> := if first then [] else [Comma];
      ItemWidths(a[1..], b[1..], false);
      WidthsConcat(comma + a[0], Chain(a[1..], false));
      WidthsConcat(comma, a[0]);
      WidthsConcat(comma + b[0], Chain(b[1..], false));
      WidthsConcat(comma, b[0]);
    }
  }

  /** All spellings of a value are as wide as the printed one, before blanks and longer escapes. */
  lemma {:induction false} SameWidths(tokens: seq<Token>, v: Value)
    requires Spells(tokens, v)
    ensures Widths(tokens) == Widths(Tokens(v))
    decreases v
  {
    match v {
      case Arr(items) =>
        var parts :| SpellsItems(parts, items, v) && tokens == [OpenBracket] + Chain(parts, true) + [CloseBracket];
        forall i | 0 <= i < |items| ensures Widths(parts[i]) == Widths(ItemParts(items)[i]) {
          SameWidths(parts[i], items[i]);
        }
        ItemWidths(parts, ItemParts(items), true);
        PrintedItems(v);
        Framed(OpenBracket, Chain(parts, true), CloseBracket);
        Framed(OpenBracket, Chain(ItemParts(items), true), CloseBracket);
      case Obj(members) =>
        var keys, parts :| SpellsMembers(keys, parts, members, v) &&
          tokens == [OpenBrace] + Chain(Pairs(keys, parts), true) + [CloseBrace];
        forall i | 0 <= i < |keys| ensures Widths(parts[i]) == Widths(Tokens(members[keys[i]])) {
          SameWidths(parts[i], members[keys[i]]);
        }
        ChainWidths(keys, parts, members, true);
        Framed(OpenBrace, Chain(Pairs(keys, parts), true), CloseBrace);
        PrintedMembers(v, keys);
      case _ =>
    }
  }

  lemma Framed(start: Token, inner: seq<Token>, end: Token)
    ensures Widths([start] + inner + [end]) == Width(start) + Widths(inner) + Width(end)
  {
    WidthsConcat([start] + inner, [end]);
    WidthsConcat([start], inner);
  }

  lemma PrintedItems(v: Value)
    requires v.Arr?
    ensures Tokens(v) == [OpenBracket] + Chain(ItemParts(v.items), true) + [CloseBracket]
  {
    ItemsChained(v, |v.items|);
    assert ItemParts(v.items)[..|v.items|] == ItemParts(v.items);
  }

  lemma PrintedKeys(v: Value, keys: seq<string>)
    requires v.Obj? && keys == Sorted(v.members.Keys)
    ensures KeySet(keys) == v.members.Keys && Ascending(keys) && forall k | k in keys :: k in v.members
    ensures Tokens(v) == [OpenBrace] + Chain(Pairs(keys, MemberParts(v.members, keys)), true) + [CloseBrace]
  {
    hide Chain;
    SortedAreMembers(v.members);
    MembersChained(v, keys, |keys|);
    var pairs := Pairs(keys, MemberParts(v.members, keys));
    assert pairs[..|keys|] == pairs;
  }

  lemma {:induction false} PrintedMembers(v: Value, keys: seq<string>)
    requires v.Obj? && (forall i, j | 0 <= i < j < |keys| :: keys[i] != keys[j])
    requires forall k :: k in keys <==> k in v.members
    ensures Widths(Tokens(v)) == 2 + MemberWidths(v.members, keys) + |keys| - (if keys != [] then 1 else 0)
  {
    hide Tokens, Chain, MemberWidths, Spells, Widths;
    var sorted := Sorted(v.members.Keys);
    PrintedKeys(v, sorted);
    var parts := MemberParts(v.members, sorted);
    ChainWidths(sorted, parts, v.members, true);
    Framed(OpenBrace, Chain(Pairs(sorted, parts), true), CloseBrace);
    MembersSpell(v, sorted);
    AnyOrder(v.members, sorted, keys);
  }

  /** Between the printed tokens there is nothing. */
  lemma {:induction false} NoBlanks(v: Value)
    requires Printable(v)
    ensures |Print(v)| == Widths(Tokens(v))
    decreases v, 1, 0
  {
    match v {
      case Arr(items) =>
        ItemsTight(v, |items|);
        Framed(OpenBracket, ItemsTokens(v, |items|), CloseBracket);
      case Obj(members) =>
        SortedAreMembers(members);
        var keys := Sorted(members.Keys);
        MembersTight(v, keys, |keys|);
        Framed(OpenBrace, MembersTokens(v, keys, |keys|), CloseBrace);
      case _ =>
    }
  }

  lemma {:induction false} ItemsTight(v: Value, n: nat)
    requires v.Arr? && Printable(v) && n <= |v.items|
    ensures |ItemsText(v, n)| == Widths(ItemsTokens(v, n))
    decreases v, 0, n
  {
    if n > 0 {
      ItemsTight(v, n - 1);
      NoBlanks(v.items[n - 1]);
      var comma: seq<Token> := if n > 1 then [Comma] else [];
      WidthsConcat(ItemsTokens(v, n - 1), ItemTokens(v, n - 1));
      WidthsConcat(comma, Tokens(v.items[n - 1]));
    }
  }

  lemma {:induction false} MembersTight(v: Value, keys: seq<string>, n: nat)
    requires v.Obj? && Printable(v) && n <= |keys| && KeySet(keys) == v.members.Keys
    requires forall k | k in keys :: k in v.members
    ensures |MembersText(v, keys, n)| == Widths(MembersTokens(v, keys, n))
    decreases v, 0, n
  {
    if n > 0 {
      MembersTight(v, keys, n - 1);
      var key := keys[n - 1];
      NoBlanks(v.members[key]);
      MemberTokensAre(v, keys, n - 1);
      var comma: seq<Token> := if n > 1 then [Comma] else [];
      WidthsConcat(MembersTokens(v, keys, n - 1), MemberTokens(v, keys, n - 1));
      WidthsConcat(comma, [Text(key), Colon] + Tokens(v.members[key]));
      PairWidths(key, Tokens(v.members[key]));
    }
  }

  // ----- Documents -----------------------------------------------------------------------------------

  /** A document is accepted as a value exactly if it writes tokens that spell it. */
  lemma {:induction false} DocumentExactly(document: string, v: Value)
    ensures DecodeOne(document) == Some(v) <==> exists tokens :: Written(document, tokens) && Spells(tokens, v)
  {
    hide Written, Spells, Lex;
    AcceptsExactly(document, v);
    if Lex(document).Some? {
      LexExactly(document, Lex(document).value);
    }
    if tokens :| Written(document, tokens) && Spells(tokens, v) {
      LexExactly(document, tokens);
    }
  }

  /** No document that decodes to a value is shorter than its canonical text. */
  lemma {:induction false} ShortestDocument(document: string, v: Value)
    requires Printable(v) && DecodeOne(document) == Some(v)
    ensures |Print(v)| <= |document|
  {
    hide Written, Spells;
    DocumentExactly(document, v);
    var tokens :| Written(document, tokens) && Spells(tokens, v);
    ShortestTokens(document, tokens);
    SameWidths(tokens, v);
    NoBlanks(v);
  }
}
