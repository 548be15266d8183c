/** How texts, numbers and words are written, RFC 8259 sections 2, 3, 6 and 7, and that the lexer reads just that. */
module Lexemes {
  import opened Basics
  import opened Integers
  import opened JsonLexer

  // ----- Texts -----------------------------------------------------------------------------------

  function ShortEscapes(): map<char, char> {
    map['"' := '"', '\\' := '\\', '/' := '/', 'b' := 8 as char, 'f' := 12 as char, 'n' := '\n', 'r' := '\r',
        't' := '\t']
  }

  function Nibble(c: char): int {
    if '0' <= c <= '9' then c as int - 48 else if 'a' <= c <= 'f' then c as int - 87
    else if 'A' <= c <= 'F' then c as int - 55 else -1
  }

  /** A backslash, the letter u, and four hexadecimal digits of this value. */
  predicate Coded(unit: string, v: int) {
    && |unit| == 6 && unit[0] == '\\' && unit[1] == 'u' && (forall i | 2 <= i < 6 :: Nibble(unit[i]) >= 0)
    && v == ((Nibble(unit[2]) * 16 + Nibble(unit[3])) * 16 + Nibble(unit[4])) * 16 + Nibble(unit[5])
  }

  predicate High(v: int) {
    0xD800 <= v < 0xDC00
  }

  predicate Low(v: int) {
    0xDC00 <= v < 0xE000
  }

  /** One character of a text: itself, a short escape, a code, or a pair of surrogate codes. */
  ghost predicate Spelled(unit: string, c: char) {
    || (unit == [c] && c >= ' ' && c != '"' && c != '\\')
    || (|unit| == 2 && unit[0] == '\\' && unit[1] in ShortEscapes() && c == ShortEscapes()[unit[1]])
    || (exists v :: Coded(unit, v) && if High(v) || Low(v) then c as int == 0xFFFD else c as int == v)
    || (|unit| == 12 && exists v, w :: Coded(unit[..6], v) && Coded(unit[6..], w) && High(v) && Low(w) &&
                                       c as int == 0x1_0000 + (v - 0xD800) * 0x400 + (w - 0xDC00))
  }

  /** A lone code of a high surrogate does not stand before one of a low surrogate: together they are a pair. */
  ghost predicate Apart(unit: string, next: string) {
    forall v, w :: Coded(unit, v) && Coded(next, w) && High(v) ==> !Low(w)
  }

  function Flat(units: seq<string>): string {
    if units == [] then "" else units[0] + Flat(units[1..])
  }

  ghost predicate SpelledText(units: seq<string>, text: string) {
    && |units| == |text| && (forall i | 0 <= i < |units| :: Spelled(units[i], text[i]))
    && forall i | 0 <= i < |units| - 1 :: Apart(units[i], units[i + 1])
  }

  lemma HexExactly(c: char)
    ensures HexValue(c) == if Nibble(c) >= 0 then Some(Nibble(c)) else None
  {
  }

  lemma {:induction false} Hex4Exactly(s: string, unit: string, v: int)
    requires |s| >= 5 && unit == ['\\'] + s[..5] && s[0] == 'u'
    ensures Coded(unit, v) <==> Hex4(s[1..]) == Some(v)
  {
    HexExactly(s[1]);
    HexExactly(s[2]);
    HexExactly(s[3]);
    HexExactly(s[4]);
  }

  ghost predicate HighCode(unit: string) {
    exists v :: Coded(unit, v) && High(v)
  }

  ghost predicate BeginsLow(s: string) {
    |s| >= 6 && exists w :: Coded(s[..6], w) && Low(w)
  }

  /** The lexer's test for the second half of a pair, seen after a backslash and the first code. */
  lemma {:induction false} SecondHalf(s: string)
    requires |s| >= 5
    ensures (|s| >= 11 && s[5] == '\\' && s[6] == 'u' && LowSurrogate(Hex4(s[7..]))) <==> BeginsLow(s[5..])
  {
    if |s| >= 11 && s[5] == '\\' && s[6] == 'u' {
      var t := s[6..];
      assert s[7..] == t[1..] && s[5..][..6] == ['\\'] + t[..5];
      forall w ensures Coded(s[5..][..6], w) <==> Hex4(t[1..]) == Some(w) {
        Hex4Exactly(t, s[5..][..6], w);
      }
    }
  }

  lemma {:induction false} CodeReads(unit: string, v: int, tail: string)
    requires Coded(unit, v)
    ensures var s := unit[1..] + tail; s[0] == 'u' && Hex4(s[1..]) == Some(v) && s[5..] == tail
  {
    var s := unit[1..] + tail;
    assert unit == ['\\'] + s[..5];
    Hex4Exactly(s, unit, v);
  }

  lemma {:induction false} PlainReads(c: char, tail: string)
    requires c >= ' ' && c != '"' && c != '\\'
    ensures LexText([c] + tail) == Consed(c, LexText(tail))
  {
    assert ([c] + tail)[1..] == tail;
  }

  lemma {:induction false} ShortReads(x: char, tail: string)
    requires x in ShortEscapes()
    ensures LexText(['\\', x] + tail) == Consed(ShortEscapes()[x], LexText(tail))
  {
    assert (['\\', x] + tail)[1..] == [x] + tail && ([x] + tail)[1..] == tail;
  }

  lemma {:induction false} EscapeReads(s: string, rest: string, c: char)
    requires LexEscape(s) == Some((c, rest))
    ensures LexText(['\\'] + s) == Consed(c, LexText(rest))
  {
    assert (['\\'] + s)[1..] == s;
  }

  lemma {:induction false} LoneReads(unit: string, v: int, c: char, tail: string)
    requires Coded(unit, v) && if High(v) || Low(v) then c as int == 0xFFFD else c as int == v
    requires High(v) ==> !BeginsLow(tail)
    ensures LexText(unit + tail) == Consed(c, LexText(tail))
  {
    hide BeginsLow, Coded;
    CodeBegins(unit, v);
    var s := unit[1..] + tail;
    CodeReads(unit, v, tail);
    SecondHalf(s);
    assert unit + tail == ['\\'] + s;
    EscapeReads(s, tail, c);
  }

  lemma CodeBegins(unit: string, v: int)
    requires Coded(unit, v)
    ensures |unit| == 6 && unit == ['\\'] + unit[1..] && 0 <= v < 0x1_0000
  {
  }

  lemma {:induction false} PairReads(first: string, v: int, second: string, w: int, c: char, tail: string)
    requires Coded(first, v) && Coded(second, w) && High(v) && Low(w)
    requires c as int == 0x1_0000 + (v - 0xD800) * 0x400 + (w - 0xDC00)
    ensures LexText(first + second + tail) == Consed(c, LexText(tail))
  {
    hide Coded;
    CodeBegins(first, v);
    CodeBegins(second, w);
    var s := first[1..] + (second + tail);
    CodeReads(first, v, second + tail);
    CodeReads(second, w, tail);
    SecondHalf(s);
    assert s[5..] == second + tail && s[5..][..6] == second && s[7..] == (second[1..] + tail)[1..];
    assert s[11..] == tail;
    assert first + second + tail == ['\\'] + s;
    EscapeReads(s, tail, c);
  }

  lemma {:induction false} UnitReads(unit: string, c: char, tail: string)
    requires Spelled(unit, c) && !(HighCode(unit) && BeginsLow(tail))
    ensures LexText(unit + tail) == Consed(c, LexText(tail))
  {
    hide Coded, BeginsLow, LexText;
    if unit == [c] && c >= ' ' && c != '"' && c != '\\' {
      PlainReads(c, tail);
    } else if |unit| == 2 && unit[0] == '\\' && unit[1] in ShortEscapes() && c == ShortEscapes()[unit[1]] {
      assert unit == ['\\', unit[1]];
      ShortReads(unit[1], tail);
    } else if v :| Coded(unit, v) && if High(v) || Low(v) then c as int == 0xFFFD else c as int == v {
      LoneReads(unit, v, c, tail);
    } else {
      var v, w :| Coded(unit[..6], v) && Coded(unit[6..], w) && High(v) && Low(w) &&
                  c as int == 0x1_0000 + (v - 0xD800) * 0x400 + (w - 0xDC00);
      assert unit == unit[..6] + unit[6..];
      PairReads(unit[..6], v, unit[6..], w, c, tail);
    }
  }

  /** What the lexer takes after a backslash is one unit. */
  lemma {:induction false} EscapeFound(s: string, c: char, rest: string)
    requires LexEscape(s) == Some((c, rest))
    ensures |rest| < |s| && rest == s[|s| - |rest|..]
    ensures var unit := ['\\'] + s[..|s| - |rest|];
            Spelled(unit, c) && !(HighCode(unit) && BeginsLow(rest))
  {
    if s[0] == 'u' {
      CodeFound(s, c, rest);
    } else {
      assert rest == s[1..] && s[..1] == [s[0]];
      assert s[0] in ShortEscapes() && c == ShortEscapes()[s[0]];
    }
  }

  lemma {:induction false} CodeFound(s: string, c: char, rest: string)
    requires LexEscape(s) == Some((c, rest)) && s[0] == 'u'
    ensures |rest| < |s| && rest == s[|s| - |rest|..]
    ensures var unit := ['\\'] + s[..|s| - |rest|];
            Spelled(unit, c) && !(HighCode(unit) && BeginsLow(rest))
  {
    hide Coded, BeginsLow, Hex4;
    Hex4Long(s[1..]);
    var v := Hex4(s[1..]).value;
    var first := ['\\'] + s[..5];
    Hex4Exactly(s, first, v);
    SecondHalf(s);
    if High(v) && BeginsLow(s[5..]) {
      assert |s| >= 11 && s[5] == '\\' && s[6] == 'u' && LowSurrogate(Hex4(s[7..]));
      var w := Hex4(s[7..]).value;
      var t := s[6..];
      var second := ['\\'] + t[..5];
      assert s[7..] == t[1..];
      Hex4Exactly(t, second, w);
      var unit := ['\\'] + s[..11];
      assert unit[..6] == first && unit[6..] == second && rest == s[11..];
      NotCode(unit);
    } else {
      assert rest == s[5..] && ['\\'] + s[..5] == first;
      OneValue(first, v);
    }
  }

  lemma Hex4Long(s: string)
    ensures Hex4(s).Some? ==> |s| >= 4
  {
  }

  lemma NotCode(unit: string)
    requires |unit| != 6
    ensures !HighCode(unit)
  {
  }

  lemma OneValue(unit: string, v: int)
    requires Coded(unit, v)
    ensures HighCode(unit) <==> High(v)
  {
  }

  lemma {:induction false} UnitFound(s: string) returns (unit: string)
    requires LexText(s).Some? && s[0] != '"'
    ensures var (text, rest) := LexText(s).value;
            && text != "" && 0 < |unit| <= |s| && unit == s[..|unit|] && Spelled(unit, text[0])
            && LexText(s[|unit|..]) == Some((text[1..], rest)) && !(HighCode(unit) && BeginsLow(s[|unit|..]))
  {
    hide Spelled, HighCode, BeginsLow;
    if s[0] == '\\' {
      var (c, tail) := LexEscape(s[1..]).value;
      EscapeFound(s[1..], c, tail);
      unit := ['\\'] + s[1..][..|s| - 1 - |tail|];
      assert unit == s[..|unit|] && s[|unit|..] == tail;
      ConsedParts(c, LexText(tail));
    } else {
      unit := [s[0]];
      PlainSpelled(s[0]);
      ConsedParts(s[0], LexText(s[1..]));
    }
  }

  lemma ConsedParts(c: char, r: Option<(string, string)>)
    requires Consed(c, r).Some?
    ensures r.Some? && Consed(c, r).value.0 == [c] + r.value.0 && Consed(c, r).value.1 == r.value.1
    ensures ([c] + r.value.0)[1..] == r.value.0
  {
  }

  lemma PlainSpelled(c: char)
    requires c >= ' ' && c != '"' && c != '\\'
    ensures Spelled([c], c) && !HighCode([c])
  {
  }

  /** A lone low code at the start of what follows is the next unit. */
  lemma {:induction false} NextUnit(unit: string, c: char, tail: string)
    requires Spelled(unit, c)
    ensures BeginsLow(unit + tail) <==> exists w :: Coded(unit, w) && Low(w)
  {
    var s := unit + tail;
    assert |unit| >= 2 ==> s[1] == unit[1];
    assert |unit| >= 6 ==> s[..6] == unit[..6];
    assert |unit| == 6 ==> unit[..6] == unit;
  }

  /** The lexer reads a text exactly where it is written out and closed by a quote. */
  lemma {:induction false} TextExactly(s: string, text: string, rest: string)
    ensures LexText(s) == Some((text, rest)) <==>
            exists units :: SpelledText(units, text) && s == Flat(units) + ("\"" + rest)
  {
    if LexText(s) == Some((text, rest)) {
      var units := TextFound(s);
    }
    if units :| SpelledText(units, text) && s == Flat(units) + ("\"" + rest) {
      TextReads(units, text, rest);
    }
  }

  lemma {:induction false} TextReads(units: seq<string>, text: string, rest: string)
    requires SpelledText(units, text)
    ensures LexText(Flat(units) + ("\"" + rest)) == Some((text, rest))
    decreases |units|
  {
    hide Spelled, Coded, BeginsLow;
    if units == [] {
      assert Flat(units) + ("\"" + rest) == "\"" + rest && ("\"" + rest)[1..] == rest;
    } else {
      var tail := Flat(units[1..]) + ("\"" + rest);
      assert Flat(units) + ("\"" + rest) == units[0] + tail;
      TextReads(units[1..], text[1..], rest);
      NotSplit(units, text, tail, rest);
      UnitReads(units[0], text[0], tail);
      assert text == [text[0]] + text[1..];
    }
  }

  lemma {:induction false} NotSplit(units: seq<string>, text: string, tail: string, rest: string)
    requires SpelledText(units, text) && units != [] && tail == Flat(units[1..]) + ("\"" + rest)
    ensures !(HighCode(units[0]) && BeginsLow(tail))
  {
    hide Spelled, Coded;
    if |units| == 1 {
      assert tail[0] == '"';
      QuoteIsNoCode(tail);
    } else {
      var more := Flat(units[2..]) + ("\"" + rest);
      assert units[1..][1..] == units[2..];
      assert tail == units[1] + more;
      NextUnit(units[1], text[1], more);
      assert Apart(units[0], units[1]);
    }
  }

  lemma QuoteIsNoCode(s: string)
    requires s != "" && s[0] == '"'
    ensures !BeginsLow(s)
  {
  }

  lemma {:induction false} TextFound(s: string) returns (units: seq<string>)
    requires LexText(s).Some?
    ensures var (text, rest) := LexText(s).value;
            SpelledText(units, text) && s == Flat(units) + ("\"" + rest)
    decreases |s|
  {
    hide LexText, SpelledText, Spelled, HighCode, BeginsLow;
    var (text, rest) := LexText(s).value;
    if s[0] == '"' {
      units := [];
      NothingFound(s);
    } else {
      var unit := UnitFound(s);
      var others := TextFound(s[|unit|..]);
      units := [unit] + others;
      assert units[1..] == others && s == unit + s[|unit|..];
      if others != [] {
        Separated(unit, others, text[1..], "\"" + rest);
      }
      OneMore(unit, others, text);
    }
  }

  lemma NothingFound(s: string)
    requires s != "" && s[0] == '"'
    ensures LexText(s) == Some(("", s[1..])) && SpelledText([], "") && s == Flat([]) + ("\"" + s[1..])
  {
    assert s == "\"" + s[1..];
  }

  lemma OneMore(unit: string, others: seq<string>, text: string)
    requires text != "" && Spelled(unit, text[0]) && SpelledText(others, text[1..])
    requires others != [] ==> Apart(unit, others[0])
    ensures SpelledText([unit] + others, text)
  {
    hide Spelled, Apart;
  }

  lemma {:induction false} Separated(unit: string, others: seq<string>, text: string, end: string)
    requires others != [] && SpelledText(others, text)
    requires !(HighCode(unit) && BeginsLow(Flat(others) + end))
    ensures Apart(unit, others[0])
  {
    hide Spelled, Coded, BeginsLow;
    var more := Flat(others[1..]) + end;
    assert Flat(others) + end == others[0] + more;
    NextUnit(others[0], text[0], more);
  }

  // ----- Numbers -----------------------------------------------------------------------------------

  predicate Digits(s: string, from: nat, to: nat) {
    from < to <= |s| && forall i | from <= i < to :: '0' <= s[i] <= '9'
  }

  /** A sign up to a, an integer up to b without needless zeros, a fraction up to c, an exponent up to n. */
  predicate NumberCut(s: string, a: nat, b: nat, c: nat, n: nat) {
    && a <= b <= c <= n <= |s| && a <= 1 && (a == 1 ==> s[0] == '-')
    && Digits(s, a, b) && (s[a] == '0' ==> b == a + 1)
    && (c == b || (s[b] == '.' && Digits(s, b + 1, c)))
    && (n == c || (s[c] in {'e', 'E'} &&
          (Digits(s, c + 1, n) || (c + 1 < n && s[c + 1] in {'+', '-'} && Digits(s, c + 2, n)))))
  }

  /** What follows is not read as more of the number. */
  predicate Unextended(s: string, a: nat, b: nat, c: nat, n: nat) {
    n >= |s| ||
    (&& a < |s| && ('0' <= s[n] <= '9' ==> s[a] == '0' && b == n)
     && (s[n] == '.' ==> b < n)
     && (s[n] in {'e', 'E'} ==> c < n))
  }

  lemma {:induction false} CountExactly(s: string, n: nat)
    ensures CountDigits(s) == n <==>
              n <= |s| && (forall i | 0 <= i < n :: '0' <= s[i] <= '9') && (n < |s| ==> !('0' <= s[n] <= '9'))
    decreases |s|
  {
    if s != "" && Digit(s[0]) && n > 0 {
      CountExactly(s[1..], n - 1);
      if n <= |s| && forall i | 0 <= i < n :: '0' <= s[i] <= '9' {
        assert forall i | 0 <= i < n - 1 :: s[1..][i] == s[i + 1];
      }
      if n <= |s| && forall i | 0 <= i < n - 1 :: '0' <= s[1..][i] <= '9' {
        assert forall i | 0 < i < n :: s[i] == s[1..][i - 1];
      }
    }
  }

  lemma {:induction false} CountFrom(s: string, from: nat, to: nat)
    requires from <= to
    ensures from <= |s| ==>
              (from + CountDigits(s[from..]) == to <==>
               to <= |s| && (forall i | from <= i < to :: '0' <= s[i] <= '9') && (to < |s| ==> !('0' <= s[to] <= '9')))
  {
    if from <= |s| {
      CountExactly(s[from..], to - from);
      assert forall i | from <= i < |s| :: s[i] == s[from..][i - from];
    }
  }

  lemma {:induction false} FractionExactly(s: string, b: nat, c: nat)
    requires b <= |s| && b <= c
    ensures Fraction(s, b) == Some(c) <==>
              (c == b && (b < |s| ==> s[b] != '.')) ||
              (b < |s| && s[b] == '.' && Digits(s, b + 1, c) && (c < |s| ==> !('0' <= s[c] <= '9')))
  {
    if b < |s| && s[b] == '.' && c > b {
      CountFrom(s, b + 1, c);
    }
  }

  lemma {:induction false} ExponentExactly(s: string, c: nat, n: nat)
    requires c <= |s| && c <= n
    ensures Exponent(s, c) == Some(n) <==>
              (n == c && (c < |s| ==> s[c] !in {'e', 'E'})) ||
              (c < |s| && s[c] in {'e', 'E'} && (n < |s| ==> !('0' <= s[n] <= '9')) &&
               (Digits(s, c + 1, n) || (c + 1 < n <= |s| && s[c + 1] in {'+', '-'} && Digits(s, c + 2, n))))
  {
    if c < |s| && s[c] in {'e', 'E'} {
      if c + 1 <= n {
        CountFrom(s, c + 1, n);
      }
      if c + 2 <= n {
        CountFrom(s, c + 2, n);
      }
    }
  }

  lemma {:induction false} NumberFound(s: string, n: nat) returns (a: nat, b: nat, c: nat)
    requires NumberLength(s) == Some(n)
    ensures NumberCut(s, a, b, c, n) && Unextended(s, a, b, c, n)
  {
    hide CountDigits, Fraction, Exponent, NumberCut, Unextended;
    a := if s != "" && s[0] == '-' then 1 else 0;
    b := if s[a] == '0' then a + 1 else a + CountDigits(s[a..]);
    c := Fraction(s, b).value;
    CountFrom(s, a, b);
    NumberFollows(s, a, b, c, n);
  }

  lemma {:induction false} NumberFollows(s: string, a: nat, b: nat, c: nat, n: nat)
    requires a <= b <= c <= n <= |s| && a <= 1 && (a == 1 ==> s[0] == '-') && Digits(s, a, b)
    requires if s[a] == '0' then b == a + 1 else b < |s| ==> !('0' <= s[b] <= '9')
    requires Fraction(s, b) == Some(c) && Exponent(s, c) == Some(n)
    ensures NumberCut(s, a, b, c, n) && Unextended(s, a, b, c, n)
  {
    hide Fraction, Exponent;
    FractionExactly(s, b, c);
    ExponentExactly(s, c, n);
  }

  lemma {:induction false} NumberReads(s: string, a: nat, b: nat, c: nat, n: nat)
    requires NumberCut(s, a, b, c, n) && Unextended(s, a, b, c, n)
    ensures NumberLength(s) == Some(n)
  {
    hide CountDigits, Fraction, Exponent;
    SignRead(s, a, b, c, n);
    CountFrom(s, a, b);
    FractionRead(s, a, b, c, n);
    ExponentRead(s, a, b, c, n);
  }

  lemma SignRead(s: string, a: nat, b: nat, c: nat, n: nat)
    requires NumberCut(s, a, b, c, n)
    ensures a == (if s != "" && s[0] == '-' then 1 else 0) && Digit(s[a])
  {
  }

  lemma {:induction false} FractionRead(s: string, a: nat, b: nat, c: nat, n: nat)
    requires NumberCut(s, a, b, c, n) && Unextended(s, a, b, c, n)
    ensures Fraction(s, b) == Some(c)
    ensures b < |s| && '0' <= s[b] <= '9' ==> s[a] == '0'
  {
    hide Fraction;
    FractionExactly(s, b, c);
  }

  lemma {:induction false} ExponentRead(s: string, a: nat, b: nat, c: nat, n: nat)
    requires NumberCut(s, a, b, c, n) && Unextended(s, a, b, c, n)
    ensures Exponent(s, c) == Some(n)
  {
    hide Exponent;
    ExponentExactly(s, c, n);
  }

  /** A number is read as far as it goes, and only where the grammar allows it to end. */
  lemma {:induction false} NumberExactly(s: string, n: nat)
    ensures NumberLength(s) == Some(n) <==>
              exists a, b, c :: NumberCut(s, a, b, c, n) && Unextended(s, a, b, c, n)
  {
    hide NumberLength, NumberCut, Unextended;
    if NumberLength(s) == Some(n) {
      var a, b, c := NumberFound(s, n);
    }
    if a: nat, b: nat, c: nat :| NumberCut(s, a, b, c, n) && Unextended(s, a, b, c, n) {
      NumberReads(s, a, b, c, n);
    }
  }

  // ----- Tokens ------------------------------------------------------------------------------------

  predicate Blank(s: string) {
    forall c | c in s :: c in {' ', '\t', '\n', '\r'}
  }

  ghost predicate TextLexeme(s: string, text: string, n: nat) {
    n <= |s| && exists units :: SpelledText(units, text) && s[..n] == "\"" + Flat(units) + "\""
  }

  ghost predicate NumberLexeme(s: string, literal: string, n: nat) {
    n <= |s| && literal == s[..n] && exists a, b, c :: NumberCut(s, a, b, c, n) && Unextended(s, a, b, c, n)
  }

  /** The first n characters are this token's. */
  ghost predicate Lexeme(s: string, token: Token, n: nat) {
    match token
    case OpenBrace => n == 1 && "{" <= s
    case CloseBrace => n == 1 && "}" <= s
    case OpenBracket => n == 1 && "[" <= s
    case CloseBracket => n == 1 && "]" <= s
    case Comma => n == 1 && "," <= s
    case Colon => n == 1 && ":" <= s
    case True => n == 4 && "true" <= s
    case False => n == 5 && "false" <= s
    case Nil => n == 4 && "null" <= s
    case Text(text) => TextLexeme(s, text, n)
    case Number(literal) => NumberLexeme(s, literal, n)
  }

  /** The tokens one after the other, with blanks before, between and after them. */
  ghost predicate Written(s: string, tokens: seq<Token>)
    decreases |tokens|
  {
    if tokens == [] then Blank(s)
    else exists k: nat, n: nat ::
           k + n <= |s| && Blank(s[..k]) && Lexeme(s[k..], tokens[0], n) && Written(s[k + n..], tokens[1..])
  }

  lemma {:induction false} TextTaken(s: string, text: string, n: nat)
    requires s != "" && s[0] == '"' && n <= |s|
    ensures LexText(s[1..]) == Some((text, s[n..])) <==> TextLexeme(s, text, n)
  {
    hide SpelledText, LexText, Flat;
    TextExactly(s[1..], text, s[n..]);
    forall units: seq<string>
      ensures s[1..] == Flat(units) + ("\"" + s[n..]) <==> s[..n] == "\"" + Flat(units) + "\""
    {
      CutAfterQuote(s, Flat(units), n);
    }
  }

  lemma CutAfterQuote(s: string, body: string, n: nat)
    requires s != "" && s[0] == '"' && n <= |s|
    ensures s[1..] == body + ("\"" + s[n..]) <==> s[..n] == "\"" + body + "\""
  {
    if s[1..] == body + ("\"" + s[n..]) {
      assert s == "\"" + body + "\"" + s[n..];
    }
    if s[..n] == "\"" + body + "\"" {
      assert s == s[..n] + s[n..];
    }
  }

  lemma {:induction false} LexemeBegins(s: string, token: Token, n: nat)
    requires Lexeme(s, token, n)
    ensures s != "" && 0 < n <= |s| && !Space(s[0])
    ensures token.Text? <==> s[0] == '"'
    ensures token.Number? <==> s[0] == '-' || Digit(s[0])
  {
    if token.Text? {
      var units :| SpelledText(units, token.text) && s[..n] == "\"" + Flat(units) + "\"";
      assert s[0] == s[..n][0] == '"';
    }
  }

  /** One token is taken exactly where it stands. */
  lemma {:induction false} OneExactly(s: string, token: Token, rest: string)
    requires s != ""
    ensures LexOne(s) == Some((token, rest)) <==> exists n: nat :: Lexeme(s, token, n) && n <= |s| && rest == s[n..]
  {
    hide LexText, NumberLength, TextLexeme, NumberLexeme;
    if LexOne(s) == Some((token, rest)) {
      var n := OneFound(s, token, rest);
    }
    if n: nat :| Lexeme(s, token, n) && n <= |s| && rest == s[n..] {
      OneTaken(s, token, n);
    }
  }

  lemma {:induction false} OneFound(s: string, token: Token, rest: string) returns (n: nat)
    requires s != "" && LexOne(s) == Some((token, rest))
    ensures n <= |s| && Lexeme(s, token, n) && rest == s[n..]
  {
    hide LexText, NumberLength, TextLexeme;
    n := |s| - |rest|;
    if s[0] == '"' {
      n := TextEnd(s, token.text, rest);
    } else if s[0] == '-' || Digit(s[0]) {
      n := NumberLength(s).value;
      NumberExactly(s, n);
    }
  }

  lemma {:induction false} TextEnd(s: string, text: string, rest: string) returns (n: nat)
    requires s != "" && s[0] == '"' && LexText(s[1..]) == Some((text, rest))
    ensures n <= |s| && TextLexeme(s, text, n) && rest == s[n..]
  {
    hide SpelledText, TextLexeme;
    TextExactly(s[1..], text, rest);
    var units :| SpelledText(units, text) && s[1..] == Flat(units) + ("\"" + rest);
    n := |s| - |rest|;
    assert s[n..] == s[1..][n - 1..] == rest;
    TextTaken(s, text, n);
  }

  lemma {:induction false} OneTaken(s: string, token: Token, n: nat)
    requires Lexeme(s, token, n)
    ensures s != "" && n <= |s| && LexOne(s) == Some((token, s[n..]))
  {
    hide LexText, NumberLength, TextLexeme, NumberCut, Unextended;
    LexemeBegins(s, token, n);
    if token.Text? {
      TextTaken(s, token.text, n);
    } else if token.Number? {
      NumberExactly(s, n);
    }
  }

  lemma {:induction false} NothingWritten(tokens: seq<Token>)
    ensures Written("", tokens) <==> tokens == []
  {
    if tokens != [] && Written("", tokens) {
      var k: nat, n: nat :|
          k + n <= |""| && Blank(""[..k]) && Lexeme(""[k..], tokens[0], n) && Written(""[k + n..], tokens[1..]);
      LexemeBegins(""[k..], tokens[0], n);
    }
  }

  lemma {:induction false} BlankBefore(s: string, tokens: seq<Token>)
    requires s != "" && Space(s[0])
    ensures Written(s, tokens) <==> Written(s[1..], tokens)
  {
    hide Lexeme;
    if tokens == [] {
      BlankCons(s, |s|);
    } else {
      if Written(s, tokens) {
        var k: nat, n: nat :|
          k + n <= |s| && Blank(s[..k]) && Lexeme(s[k..], tokens[0], n) && Written(s[k + n..], tokens[1..]);
        LexemeBegins(s[k..], tokens[0], n);
        BlankCons(s, k);
        assert s[1..][k - 1..] == s[k..] && s[1..][k - 1 + n..] == s[k + n..];
        assert Lexeme(s[1..][k - 1..], tokens[0], n);
      }
      if Written(s[1..], tokens) {
        var k: nat, n: nat :|
          k + n <= |s[1..]| && Blank(s[1..][..k]) && Lexeme(s[1..][k..], tokens[0], n) &&
          Written(s[1..][k + n..], tokens[1..]);
        BlankCons(s, k + 1);
        assert s[1..][k..] == s[k + 1..] && s[1..][k + n..] == s[k + 1 + n..];
        assert Lexeme(s[k + 1..], tokens[0], n);
      }
    }
  }

  lemma BlankJoined(c: char, s: string)
    requires Space(c)
    ensures Blank([c] + s) <==> Blank(s)
  {
    assert forall x :: x in [c] + s <==> x == c || x in s;
  }

  lemma BlankFirst(s: string, k: nat)
    requires k <= |s| && Blank(s[..k])
    ensures k > 0 ==> Space(s[0])
  {
    if k > 0 {
      assert s[0] in s[..k];
    }
  }

  lemma BlankCons(s: string, k: nat)
    requires s != "" && k <= |s| && Space(s[0])
    ensures k > 0 ==> (Blank(s[..k]) <==> Blank(s[1..][..k - 1]))
    ensures Blank(s) <==> Blank(s[1..])
  {
    BlankJoined(s[0], s[1..]);
    assert s == [s[0]] + s[1..];
    if k > 0 {
      BlankJoined(s[0], s[1..][..k - 1]);
      assert s[..k] == [s[0]] + s[1..][..k - 1];
    }
  }

  lemma {:induction false} TokenFirst(s: string, tokens: seq<Token>)
    requires s != "" && !Space(s[0])
    ensures Written(s, tokens) <==>
              tokens != [] && exists n: nat :: Lexeme(s, tokens[0], n) && n <= |s| && Written(s[n..], tokens[1..])
  {
    hide Lexeme;
    if tokens == [] {
      assert s[0] in s;
    } else {
      if Written(s, tokens) {
        var k: nat, n: nat :|
          k + n <= |s| && Blank(s[..k]) && Lexeme(s[k..], tokens[0], n) && Written(s[k + n..], tokens[1..]);
        BlankFirst(s, k);
        assert s[0..] == s;
      }
      if n: nat :| Lexeme(s, tokens[0], n) && n <= |s| && Written(s[n..], tokens[1..]) {
        assert s[0..] == s && s[..0] == "" && s[0 + n..] == s[n..];
        assert Lexeme(s[0..], tokens[0], n);
      }
    }
  }

  /** The lexer accepts exactly the texts in which the tokens are written, in this order. */
  lemma {:induction false} LexExactly(s: string, tokens: seq<Token>)
    ensures Lex(s) == Some(tokens) <==> Written(s, tokens)
    decreases |s|
  {
    hide Lexeme, Written, LexOne;
    if s == "" {
      NothingWritten(tokens);
    } else if Space(s[0]) {
      LexExactly(s[1..], tokens);
      BlankBefore(s, tokens);
    } else {
      TokenFirst(s, tokens);
      if Written(s, tokens) {
        var n: nat :| Lexeme(s, tokens[0], n) && n <= |s| && Written(s[n..], tokens[1..]);
        OneTaken(s, tokens[0], n);
        LexExactly(s[n..], tokens[1..]);
        assert tokens == [tokens[0]] + tokens[1..];
      }
      if Lex(s) == Some(tokens) {
        var (token, rest) := LexOne(s).value;
        assert tokens[0] == token && tokens[1..] == Lex(rest).value;
        OneExactly(s, token, rest);
        LexExactly(rest, tokens[1..]);
      }
    }
  }
}
