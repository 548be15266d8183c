/** The tokens of a JSON text as `encoding/json` reads them (RFC 8259), over Unicode scalars. */
module JsonLexer {
  import opened Basics
  import opened Integers

  datatype Token =
    | OpenBrace | CloseBrace | OpenBracket | CloseBracket | Comma | Colon
    | Text(text: string) | Number(literal: string) | True | False | Nil

  predicate Space(c: char) {
    c == ' ' || c == '\t' || c == '\n' || c == '\r'
  }

  function HexValue(c: char): (r: Option<int>)
    ensures r.Some? ==> 0 <= r.value < 16
  {
    if '0' <= c <= '9' then Some(c as int - '0' as int)
    else if 'a' <= c <= 'f' then Some(c as int - 'a' as int + 10)
    else if 'A' <= c <= 'F' then Some(c as int - 'A' as int + 10)
    else None
  }

  /** Four hexadecimal digits. */
  function Hex4(s: string): (r: Option<int>)
    ensures r.Some? ==> 0 <= r.value < 0x1_0000
  {
    if |s| < 4 then None
    else
      match (HexValue(s[0]), HexValue(s[1]), HexValue(s[2]), HexValue(s[3]))
      case (Some(a), Some(b), Some(c), Some(d)) => Some(a * 4096 + b * 256 + c * 16 + d)
      case _ => None
  }

  /** What follows a backslash: one scalar, and what is left. */
  function LexEscape(s: string): (r: Option<(char, string)>)
    ensures r.Some? ==> |r.value.1| < |s|
  {
    if s == "" then None
    else if s[0] == '"' || s[0] == '\\' || s[0] == '/' then Some((s[0], s[1..]))
    else if s[0] == 'b' then Some((8 as char, s[1..]))
    else if s[0] == 'f' then Some((12 as char, s[1..]))
    else if s[0] == 'n' then Some(('\n', s[1..]))
    else if s[0] == 'r' then Some(('\r', s[1..]))
    else if s[0] == 't' then Some(('\t', s[1..]))
    else if s[0] == 'u' then
      match Hex4(s[1..])
      case None => None
      case Some(v) =>
        if v < 0xD800 || 0xE000 <= v then Some((v as char, s[5..]))
        else if v < 0xDC00 && |s| >= 11 && s[5] == '\\' && s[6] == 'u' && LowSurrogate(Hex4(s[7..])) then
          Some(((0x1_0000 + (v - 0xD800) * 0x400 + (Hex4(s[7..]).value - 0xDC00)) as char, s[11..]))
        else Some((0xFFFD as char, s[5..]))
    else None
  }

  predicate LowSurrogate(v: Option<int>) {
    v.Some? && 0xDC00 <= v.value < 0xE000
  }

  /** The rest of a string after its opening quote. */
  function LexText(s: string): (r: Option<(string, string)>)
    ensures r.Some? ==> |r.value.1| < |s|
    decreases |s|
  {
    if s == "" then None
    else if s[0] == '"' then Some(("", s[1..]))
    else if s[0] as int < 0x20 then None
    else if s[0] == '\\' then
      match LexEscape(s[1..])
      case None => None
      case Some((c, rest)) => Consed(c, LexText(rest))
    else Consed(s[0], LexText(s[1..]))
  }

  function Consed(c: char, r: Option<(string, string)>): Option<(string, string)> {
    match r
    case None => None
    case Some((text, rest)) => Some(([c] + text, rest))
  }

  function CountDigits(s: string): (n: nat)
    ensures n <= |s| && forall i | 0 <= i < n :: Digit(s[i])
  {
    if s != "" && Digit(s[0]) then 1 + CountDigits(s[1..]) else 0
  }

  /** Length of the number at the start of s, RFC 8259 section 6. */
  function NumberLength(s: string): (r: Option<nat>)
    ensures r.Some? ==> 0 < r.value <= |s|
  {
    var i := if s != "" && s[0] == '-' then 1 else 0;
    if i >= |s| || !Digit(s[i]) then None
    else
      var j := if s[i] == '0' then i + 1 else i + CountDigits(s[i..]);
      match Fraction(s, j)
      case None => None
      case Some(k) => Exponent(s, k)
  }

  function Fraction(s: string, j: nat): (r: Option<nat>)
    requires j <= |s|
    ensures r.Some? ==> j <= r.value <= |s|
  {
    if j == |s| || s[j] != '.' then Some(j)
    else
      var digits := CountDigits(s[j + 1..]);
      if digits == 0 then None else Some(j + 1 + digits)
  }

  function Exponent(s: string, k: nat): (r: Option<nat>)
    requires k <= |s|
    ensures r.Some? ==> k <= r.value <= |s|
  {
    if k == |s| || (s[k] != 'e' && s[k] != 'E') then Some(k)
    else
      var sign := if k + 1 < |s| && (s[k + 1] == '+' || s[k + 1] == '-') then 1 else 0;
      var digits := CountDigits(s[k + 1 + sign..]);
      if digits == 0 then None else Some(k + 1 + sign + digits)
  }

  function LexWord(s: string, word: string, token: Token): (r: Option<(Token, string)>)
    requires word != ""
    ensures r.Some? ==> |r.value.1| < |s|
  {
    if word <= s then Some((token, s[|word|..])) else None
  }

  function LexOne(s: string): (r: Option<(Token, string)>)
    requires s != ""
    ensures r.Some? ==> |r.value.1| < |s|
  {
    var c := s[0];
    if c == '{' then Some((OpenBrace, s[1..]))
    else if c == '}' then Some((CloseBrace, s[1..]))
    else if c == '[' then Some((OpenBracket, s[1..]))
    else if c == ']' then Some((CloseBracket, s[1..]))
    else if c == ',' then Some((Comma, s[1..]))
    else if c == ':' then Some((Colon, s[1..]))
    else if c == 't' then LexWord(s, "true", True)
    else if c == 'f' then LexWord(s, "false", False)
    else if c == 'n' then LexWord(s, "null", Nil)
    else if c == '"' then
      match LexText(s[1..])
      case None => None
      case Some((text, rest)) => Some((Text(text), rest))
    else if c == '-' || Digit(c) then
      match NumberLength(s)
      case None => None
      case Some(n) => Some((Number(s[..n]), s[n..]))
    else None
  }

  function Joined(tokens: seq<Token>, r: Option<seq<Token>>): Option<seq<Token>> {
    match r
    case None => None
    case Some(more) => Some(tokens + more)
  }

  function Lex(s: string): Option<seq<Token>>
    decreases |s|
  {
    if s == "" then Some([])
    else if Space(s[0]) then Lex(s[1..])
    else
      match LexOne(s)
      case None => None
      case Some((token, rest)) => Joined([token], Lex(rest))
  }
}
