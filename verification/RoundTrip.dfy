/** What the canonical printer writes, the strict decoder reads back. */
module RoundTrip {
  import opened Basics
  import opened Canonical
  import opened Integers
  import opened Json
  import opened JsonLexer
  import opened KeyOrder
  import opened Spelling
  import opened StrictDecoder

  // ----- Texts and numbers ---------------------------------------------------------------

  lemma HexRoundTrip(d: int)
    requires 0 <= d < 16
    ensures HexValue(HexDigit(d)) == Some(d)
  {
  }

  lemma {:induction false} EscapeReads(c: char, rest: string)
    ensures LexText(Escape(c) + rest) == Consed(c, LexText(rest))
  {
    var s := Escape(c) + rest;
    if Escape(c) == [c] {
      assert s[1..] == rest;
    } else if |Escape(c)| == 2 {
      assert s[1..][1..] == rest;
    } else {
      var v := c as int;
      HexRoundTrip(v / 16);
      HexRoundTrip(v % 16);
      var tail := s[1..];
      assert tail[1..][..4] == ['0', '0', HexDigit(v / 16), HexDigit(v % 16)];
      assert Hex4(tail[1..]) == Some(v);
      assert tail[5..] == rest;
    }
  }

  lemma {:induction false} TextReads(text: string, rest: string)
    ensures LexText(EscapeAll(text) + "\"" + rest) == Some((text, rest))
    decreases |text|
  {
    if text == "" {
      assert EscapeAll(text) + "\"" + rest == "\"" + rest;
      assert ("\"" + rest)[1..] == rest;
    } else {
      var after := EscapeAll(text[1..]) + "\"" + rest;
      assert EscapeAll(text) + "\"" + rest == Escape(text[0]) + after;
      EscapeReads(text[0], after);
      TextReads(text[1..], rest);
      assert [text[0]] + text[1..] == text;
    }
  }

  lemma {:induction false} QuotedLexes(text: string, rest: string)
    ensures Lex(Quoted(text) + rest) == Joined([Text(text)], Lex(rest))
  {
    var s := Quoted(text) + rest;
    assert s[0] == '"' && s[1..] == EscapeAll(text) + "\"" + rest;
    TextReads(text, rest);
  }

  /** Text that cannot extend a number. */
  predicate Ends(rest: string) {
    rest == "" || (!Digit(rest[0]) && rest[0] != '.' && rest[0] != 'e' && rest[0] != 'E')
  }

  lemma {:induction false} DigitsCounted(digits: string, rest: string)
    requires AllDigits(digits) && Ends(rest)
    ensures CountDigits(digits + rest) == |digits|
    decreases |digits|
  {
    if digits == "" {
      assert digits + rest == rest;
    } else {
      assert (digits + rest)[1..] == digits[1..] + rest;
      DigitsCounted(digits[1..], rest);
    }
  }

  lemma {:induction false} NumberMeasured(sign: string, digits: string, rest: string)
    requires sign == "" || sign == "-"
    requires digits != "" && AllDigits(digits) && Ends(rest) && (digits[0] == '0' ==> digits == "0")
    ensures NumberLength(sign + digits + rest) == Some(|sign + digits|)
  {
    var s := sign + digits + rest;
    DigitsCounted(digits, rest);
    NumberSpans(s, |sign|, |digits|, digits + rest, rest);
  }

  lemma NumberSpans(s: string, i: nat, n: nat, digits: string, rest: string)
    requires i <= |s| && s[i..] == digits && i + n <= |s| && s[i + n..] == rest
    requires n > 0 && CountDigits(digits) == n && (digits[0] == '0' ==> n == 1) && Ends(rest)
    requires i == (if s[0] == '-' then 1 else 0)
    ensures NumberLength(s) == Some(i + n)
  {
    assert s[i] == digits[0];
    assert rest != "" ==> s[i + n] == rest[0];
  }

  /** Sign and digits of a safe integer's shortest spelling. */
  lemma LiteralParts(literal: string)
    requires AppendInteger(literal).Some?
    ensures exists sign, digits :: LiteralIs(literal, sign, digits)
  {
    AcceptedIntegers(literal);
    var n :| SafeInteger(n) && literal == FormatInt(n);
    FormatNatParses(if n < 0 then -n else n);
    assert n >= 0 ==> literal == "" + FormatNat(n);
    assert LiteralIs(literal, if n < 0 then "-" else "", FormatNat(if n < 0 then -n else n));
  }

  predicate LiteralIs(literal: string, sign: string, digits: string) {
    && literal == sign + digits && (sign == "" || sign == "-")
    && digits != "" && AllDigits(digits) && (digits[0] == '0' ==> digits == "0")
  }

  lemma {:induction false} NumberLexes(literal: string, rest: string)
    requires AppendInteger(literal).Some? && Ends(rest)
    ensures Lex(literal + rest) == Joined([Number(literal)], Lex(rest))
  {
    LiteralParts(literal);
    var sign, digits :| LiteralIs(literal, sign, digits);
    NumberMeasured(sign, digits, rest);
    assert literal[0] == '-' || Digit(literal[0]);
    NumberFirst(literal, rest);
  }

  lemma {:induction false} NumberFirst(literal: string, rest: string)
    requires literal != "" && (literal[0] == '-' || Digit(literal[0]))
    requires NumberLength(literal + rest) == Some(|literal|)
    ensures Lex(literal + rest) == Joined([Number(literal)], Lex(rest))
  {
    var s := literal + rest;
    assert s[..|literal|] == literal && s[|literal|..] == rest && s[0] == literal[0];
    assert LexOne(s) == Some((Number(literal), rest));
  }

  // ----- Tokens of a printed value ---------------------------------------------------------

  ghost function Tokens(v: Value): seq<Token>
    decreases v, 1, 0
  {
    match v
    case Null => [Nil]
    case Bool(flag) => [if flag then True else False]
    case Num(literal) => [Number(literal)]
    case Str(text) => [Text(text)]
    case Arr(items) => [OpenBracket] + ItemsTokens(v, |items|) + [CloseBracket]
    case Obj(members) => [OpenBrace] + MembersTokens(v, Sorted(members.Keys), |Sorted(members.Keys)|) + [CloseBrace]
  }

  ghost function ItemsTokens(v: Value, n: nat): seq<Token>
    requires v.Arr? && n <= |v.items|
    decreases v, 0, n, 1
  {
    if n == 0 then [] else ItemsTokens(v, n - 1) + ItemTokens(v, n - 1)
  }

  ghost function ItemTokens(v: Value, i: nat): seq<Token>
    requires v.Arr? && i < |v.items|
    decreases v, 0, i + 1, 0
  {
    (if i > 0 then [Comma] else []) + Tokens(v.items[i])
  }

  ghost function MembersTokens(v: Value, keys: seq<string>, n: nat): seq<Token>
    requires v.Obj? && n <= |keys| && KeySet(keys) <= v.members.Keys
    decreases v, 0, n, 1
  {
    if n == 0 then [] else MembersTokens(v, keys, n - 1) + MemberTokens(v, keys, n - 1)
  }

  ghost function MemberTokens(v: Value, keys: seq<string>, i: nat): seq<Token>
    requires v.Obj? && i < |keys| && KeySet(keys) <= v.members.Keys
    decreases v, 0, i + 1, 0
  {
    assert keys[i] in KeySet(keys);
    (if i > 0 then [Comma] else []) + [Text(keys[i]), Colon] + Tokens(v.members[keys[i]])
  }

  // ----- Lexing ----------------------------------------------------------------------------

  lemma JoinedTwice(a: seq<Token>, b: seq<Token>, r: Option<seq<Token>>)
    ensures Joined(a, Joined(b, r)) == Joined(a + b, r)
  {
    if r.Some? {
      assert a + (b + r.value) == a + b + r.value;
    }
  }

  lemma MarkLexes(c: char, token: Token, rest: string)
    requires c in {'{', '}', '[', ']', ',', ':'}
    requires token == (if c == '{' then OpenBrace else if c == '}' then CloseBrace else if c == '[' then OpenBracket
                       else if c == ']' then CloseBracket else if c == ',' then Comma else Colon)
    ensures Lex([c] + rest) == Joined([token], Lex(rest))
  {
    assert ([c] + rest)[1..] == rest;
  }

  lemma WordLexes(v: Value, rest: string)
    requires v.Null? || v.Bool?
    ensures Lex(Print(v) + rest) == Joined(Tokens(v), Lex(rest))
  {
    var word := Print(v);
    var s := word + rest;
    assert s[0] == word[0] && word <= s && s[|word|..] == rest;
  }

  lemma {:induction false} PrintLexes(v: Value, rest: string)
    requires Printable(v) && Ends(rest)
    ensures Lex(Print(v) + rest) == Joined(Tokens(v), Lex(rest))
    decreases v, 1, 0
  {
    match v {
      case Null => WordLexes(v, rest);
      case Bool(_) => WordLexes(v, rest);
      case Num(literal) => NumberLexes(literal, rest);
      case Str(text) => QuotedLexes(text, rest);
      case Arr(items) =>
        ItemsLex(v, |items|, "]" + rest);
        Enclosed('[', OpenBracket, ItemsText(v, |items|), ItemsTokens(v, |items|), ']', CloseBracket, rest);
      case Obj(members) =>
        var keys := Sorted(members.Keys);
        SortedAreMembers(members);
        MembersLex(v, keys, |keys|, "}" + rest);
        Enclosed('{', OpenBrace, MembersText(v, keys, |keys|), MembersTokens(v, keys, |keys|), '}', CloseBrace, rest);
    }
  }

  lemma Enclosed(start: char, first: Token, inner: string, tokens: seq<Token>, end: char, last: Token, rest: string)
    requires (start == '[' && first == OpenBracket && end == ']' && last == CloseBracket) ||
             (start == '{' && first == OpenBrace && end == '}' && last == CloseBrace)
    requires Lex(inner + ([end] + rest)) == Joined(tokens, Lex([end] + rest))
    ensures Lex([start] + inner + [end] + rest) == Joined([first] + tokens + [last], Lex(rest))
  {
    hide Lex;
    assert [start] + inner + [end] + rest == [start] + (inner + ([end] + rest));
    MarkLexes(start, first, inner + ([end] + rest));
    MarkLexes(end, last, rest);
    JoinedTwice([first], tokens, Joined([last], Lex(rest)));
    JoinedTwice([first] + tokens, [last], Lex(rest));
  }

  lemma SortedAreMembers(members: map<string, Value>)
    ensures forall k :: k in Sorted(members.Keys) <==> k in members
  {
    forall k ensures k in Sorted(members.Keys) <==> k in members {
      assert k in KeySet(Sorted(members.Keys)) <==> k in members.Keys;
    }
  }

  lemma NothingJoined(r: Option<seq<Token>>)
    ensures Joined([], r) == r
  {
    if r.Some? {
      assert [] + r.value == r.value;
    }
  }

  /** A piece, then the rest. */
  lemma Chained(head: string, middle: string, rest: string, a: seq<Token>, b: seq<Token>)
    requires Lex(head + (middle + rest)) == Joined(a, Lex(middle + rest))
    requires Lex(middle + rest) == Joined(b, Lex(rest))
    ensures Lex(head + middle + rest) == Joined(a + b, Lex(rest))
  {
    assert head + middle + rest == head + (middle + rest);
    JoinedTwice(a, b, Lex(rest));
  }

  lemma {:induction false} CommaLexes(first: bool, text: string, tokens: seq<Token>, rest: string)
    requires Lex(text + rest) == Joined(tokens, Lex(rest))
    ensures Lex((if first then "" else ",") + text + rest) ==
              Joined((if first then [] else [Comma]) + tokens, Lex(rest))
  {
    if first {
      assert "" + text + rest == text + rest && [] + tokens == tokens;
    } else {
      MarkLexes(',', Comma, text + rest);
      assert [','] + (text + rest) == "," + (text + rest);
      Chained(",", text, rest, [Comma], tokens);
    }
  }

  lemma {:induction false} ItemsLex(v: Value, n: nat, rest: string)
    requires v.Arr? && Printable(v) && n <= |v.items| && (n > 0 ==> Ends(rest))
    ensures Lex(ItemsText(v, n) + rest) == Joined(ItemsTokens(v, n), Lex(rest))
    decreases v, 0, n
  {
    if n == 0 {
      assert ItemsText(v, 0) + rest == rest;
      NothingJoined(Lex(rest));
    } else {
      var piece := ItemPiece(v, n - 1);
      PrintLexes(v.items[n - 1], rest);
      CommaLexes(n == 1, Print(v.items[n - 1]), Tokens(v.items[n - 1]), rest);
      ItemsLex(v, n - 1, piece + rest);
      Chained(ItemsText(v, n - 1), piece, rest, ItemsTokens(v, n - 1), ItemTokens(v, n - 1));
    }
  }

  /** Key, colon and value. */
  lemma {:induction false} PairLexes(key: string, text: string, tokens: seq<Token>, rest: string)
    requires Lex(text + rest) == Joined(tokens, Lex(rest))
    ensures Lex(Quoted(key) + (":" + text) + rest) == Joined([Text(key), Colon] + tokens, Lex(rest))
  {
    MarkLexes(':', Colon, text + rest);
    assert [':'] + (text + rest) == ":" + (text + rest);
    Chained(":", text, rest, [Colon], tokens);
    QuotedLexes(key, ":" + text + rest);
    Chained(Quoted(key), ":" + text, rest, [Text(key)], [Colon] + tokens);
    assert [Text(key)] + ([Colon] + tokens) == [Text(key), Colon] + tokens;
  }

  lemma {:induction false} MemberLexes(v: Value, keys: seq<string>, i: nat, rest: string)
    requires v.Obj? && i < |keys| && KeySet(keys) <= v.members.Keys && keys[i] in v.members &&
             Printable(v.members[keys[i]])
    requires Lex(Print(v.members[keys[i]]) + rest) == Joined(Tokens(v.members[keys[i]]), Lex(rest))
    ensures Lex(MemberPiece(v, keys, i) + rest) == Joined(MemberTokens(v, keys, i), Lex(rest))
  {
    var text, tokens := Print(v.members[keys[i]]), Tokens(v.members[keys[i]]);
    PairLexes(keys[i], text, tokens, rest);
    CommaLexes(i == 0, Quoted(keys[i]) + (":" + text), [Text(keys[i]), Colon] + tokens, rest);
    MemberTokensAre(v, keys, i);
  }

  lemma MemberTokensAre(v: Value, keys: seq<string>, i: nat)
    requires v.Obj? && i < |keys| && KeySet(keys) <= v.members.Keys && keys[i] in v.members
    ensures MemberTokens(v, keys, i) ==
            (if i == 0 then [] else [Comma]) + ([Text(keys[i]), Colon] + Tokens(v.members[keys[i]]))
  {
  }

  lemma {:induction false} MembersLex(v: Value, keys: seq<string>, n: nat, rest: string)
    requires v.Obj? && Printable(v) && n <= |keys| && KeySet(keys) <= v.members.Keys && (n > 0 ==> Ends(rest))
    requires forall k | k in keys :: k in v.members
    ensures Lex(MembersText(v, keys, n) + rest) == Joined(MembersTokens(v, keys, n), Lex(rest))
    decreases v, 0, n
  {
    if n == 0 {
      assert MembersText(v, keys, 0) + rest == rest;
      NothingJoined(Lex(rest));
    } else {
      var piece := MemberPiece(v, keys, n - 1);
      PrintLexes(v.members[keys[n - 1]], rest);
      MemberLexes(v, keys, n - 1, rest);
      MembersLex(v, keys, n - 1, piece + rest);
      Chained(MembersText(v, keys, n - 1), piece, rest, MembersTokens(v, keys, n - 1), MemberTokens(v, keys, n - 1));
    }
  }

  // ----- Decoding --------------------------------------------------------------------------

  /** The tokens of the elements, one part each. */
  ghost function ItemParts(items: seq<Value>): seq<seq<Token>> {
    seq(|items|, i requires 0 <= i < |items| => Tokens(items[i]))
  }

  lemma {:induction false} ItemsChained(v: Value, n: nat)
    requires v.Arr? && n <= |v.items|
    ensures ItemsTokens(v, n) == Chain(ItemParts(v.items)[..n], true)
  {
    if n > 0 {
      ItemsChained(v, n - 1);
      ChainSnoc(ItemParts(v.items)[..n - 1], Tokens(v.items[n - 1]), true);
      assert ItemParts(v.items)[..n] == ItemParts(v.items)[..n - 1] + [Tokens(v.items[n - 1])];
      assert [Comma] + Tokens(v.items[n - 1]) == ItemTokens(v, n - 1) || n == 1;
    }
  }

  ghost function MemberParts(members: map<string, Value>, keys: seq<string>): (r: seq<seq<Token>>)
    requires forall k | k in keys :: k in members
    ensures |r| == |keys|
  {
    seq(|keys|, i requires 0 <= i < |keys| => Tokens(members[keys[i]]))
  }

  /** The tokens of the last of n members, with its comma. */
  lemma MemberPart(v: Value, keys: seq<string>, n: nat)
    requires v.Obj? && 0 < n <= |keys| && KeySet(keys) <= v.members.Keys && forall k | k in keys :: k in v.members
    ensures var pairs := Pairs(keys, MemberParts(v.members, keys));
            pairs[..n] == pairs[..n - 1] + [pairs[n - 1]] && (pairs[..n - 1] == [] <==> n == 1) &&
            MemberTokens(v, keys, n - 1) == (if n == 1 then [] else [Comma]) + pairs[n - 1]
  {
    hide Tokens;
    MemberTokensAre(v, keys, n - 1);
  }

  lemma {:induction false} MembersChained(v: Value, keys: seq<string>, n: nat)
    requires v.Obj? && n <= |keys| && KeySet(keys) <= v.members.Keys && forall k | k in keys :: k in v.members
    ensures MembersTokens(v, keys, n) == Chain(Pairs(keys, MemberParts(v.members, keys))[..n], true)
  {
    hide Tokens, MemberTokens, MemberParts, Pairs;
    if n > 0 {
      MemberPart(v, keys, n);
      MembersChained(v, keys, n - 1);
      var pairs := Pairs(keys, MemberParts(v.members, keys));
      ChainSnoc(pairs[..n - 1], pairs[n - 1], true);
      Regroup(Chain(pairs[..n - 1], true), n == 1, pairs[n - 1]);
    }
  }

  lemma Regroup(chain: seq<Token>, first: bool, part: seq<Token>)
    ensures chain + (if first then [] else [Comma]) + part == chain + ((if first then [] else [Comma]) + part)
  {
  }

  /** What is printed is a spelling, with the members in ascending order. */
  lemma {:induction false} TokensSpell(v: Value)
    ensures Spells(Tokens(v), v)
  {
    match v {
      case Arr(items) =>
        var parts := ItemParts(items);
        forall i | 0 <= i < |items| ensures Spells(parts[i], items[i]) {
          TokensSpell(items[i]);
        }
        ItemsChained(v, |items|);
        assert parts[..|items|] == parts;
        assert SpellsItems(parts, items, v);
      case Obj(members) =>
        SortedAreMembers(members);
        var keys := Sorted(members.Keys);
        var parts := MemberParts(members, keys);
        MembersSpell(v, keys);
        MembersChained(v, keys, |keys|);
        assert Pairs(keys, parts)[..|keys|] == Pairs(keys, parts);
      case _ =>
    }
  }

  lemma {:induction false} MembersSpell(v: Value, keys: seq<string>)
    requires v.Obj? && KeySet(keys) == v.members.Keys && Ascending(keys) && forall k | k in keys :: k in v.members
    ensures SpellsMembers(keys, MemberParts(v.members, keys), v.members, v)
    decreases v, 0
  {
    forall i, j | 0 <= i < j < |keys| ensures keys[i] != keys[j] {
      KeyOrderIsTotal(keys[i], keys[j], "");
    }
    forall k ensures k in keys <==> k in v.members {
      assert k in KeySet(keys) <==> k in keys;
    }
    forall i | 0 <= i < |keys| ensures Spells(MemberParts(v.members, keys)[i], v.members[keys[i]]) {
      TokensSpell(v.members[keys[i]]);
    }
  }

  /** The tokens of a printed value decode to it. */
  lemma {:induction false} TokensDecode(v: Value, rest: seq<Token>)
    ensures Decode(Tokens(v) + rest) == Some((v, rest))
  {
    TokensSpell(v);
    SpelledDecodes(Tokens(v), v, rest);
  }

  // ----- The law ---------------------------------------------------------------------------

  /** Decoding what was printed gives the value back. */
  lemma {:induction false} DecodePrint(v: Value)
    requires Printable(v)
    ensures DecodeOne(Print(v)) == Some(v)
  {
    assert Print(v) + "" == Print(v);
    PrintLexes(v, "");
    assert Tokens(v) + [] == Tokens(v);
    TokensDecode(v, []);
  }

  /** One canonical text per value, and one value per canonical text. */
  lemma {:induction false} PrintInjective(a: Value, b: Value)
    requires Printable(a) && Printable(b)
    ensures Print(a) == Print(b) <==> a == b
  {
    DecodePrint(a);
    DecodePrint(b);
  }

  /** Whatever canonical document is decoded, printing it again gives the same document. */
  lemma {:induction false} PrintDecode(document: string)
    requires exists w :: Printable(w) && Print(w) == document
    ensures DecodeOne(document).Some? && Printable(DecodeOne(document).value) &&
            Print(DecodeOne(document).value) == document
  {
    var w :| Printable(w) && Print(w) == document;
    DecodePrint(w);
  }
}
