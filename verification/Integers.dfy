/** Decimal integers as canonical JSON writes them (`appendInteger` in internal/canonical/canonical.go). */
module Integers {
  import opened Basics

  const MAX_SAFE_INTEGER := 9007199254740991

  predicate Digit(c: char) {
    '0' <= c <= '9'
  }

  predicate AllDigits(s: string) {
    forall c | c in s :: Digit(c)
  }

  function DigitChar(d: int): (c: char)
    requires 0 <= d < 10
    ensures Digit(c) && DigitValue(c) == d
  {
    (d + '0' as int) as char
  }

  function FormatNat(n: nat): string {
    if n < 10 then [DigitChar(n)] else FormatNat(n / 10) + [DigitChar(n % 10)]
  }

  /** `strconv.FormatInt(n, 10)`. */
  function FormatInt(n: int): string {
    if n < 0 then "-" + FormatNat(-n) else FormatNat(n)
  }

  function DigitValue(c: char): nat
    requires Digit(c)
  {
    c as int - '0' as int
  }

  function DigitsValue(s: string): (n: int)
    requires AllDigits(s)
    ensures n >= 0
  {
    if s == "" then 0 else DigitsValue(s[..|s| - 1]) * 10 + DigitValue(s[|s| - 1])
  }

  /** `strconv.ParseInt(s, 10, 64)`. */
  function ParseInt(s: string): Option<int> {
    var negative := s != "" && s[0] == '-';
    var digits := if s != "" && (s[0] == '-' || s[0] == '+') then s[1..] else s;
    if digits == "" || !AllDigits(digits) then None
    else
      var n: int := if negative then -DigitsValue(digits) else DigitsValue(digits);
      if -0x8000_0000_0000_0000 <= n < 0x8000_0000_0000_0000 then Some(n) else None
  }

  predicate SafeInteger(n: int) {
    -MAX_SAFE_INTEGER <= n <= MAX_SAFE_INTEGER
  }

  /** The text `appendInteger` writes for a number literal, if it accepts it. */
  function AppendInteger(literal: string): Option<string> {
    if '.' in literal || 'e' in literal || 'E' in literal || literal == "-0" ||
      (literal != "" && literal[0] == '+') then None
    else
      match ParseInt(literal)
      case None => None
      case Some(n) =>
        if !SafeInteger(n) then None
        else if FormatInt(n) != literal then None
        else Some(literal)
  }

  lemma {:induction false} FormatNatParses(n: nat)
    ensures FormatNat(n) != "" && AllDigits(FormatNat(n)) && DigitsValue(FormatNat(n)) == n
    ensures FormatNat(n) == "0" <==> n == 0
    ensures n > 0 ==> FormatNat(n)[0] != '0'
  {
    if n < 10 {
      assert FormatNat(n)[..0] == "";
    } else {
      FormatNatParses(n / 10);
      var s := FormatNat(n);
      assert s[..|s| - 1] == FormatNat(n / 10) && s[|s| - 1] == DigitChar(n % 10);
      assert n / 10 * 10 + n % 10 == n;
    }
  }

  lemma Signed(digits: string)
    requires digits != "" && AllDigits(digits) && DigitsValue(digits) <= MAX_SAFE_INTEGER
    ensures var s := "-" + digits;
            ParseInt(s) == Some(-DigitsValue(digits)) && s[0] == '-' && (s == "-0" <==> digits == "0") &&
            forall c | c in s :: Digit(c) || c == '-'
  {
    var s := "-" + digits;
    assert s[1..] == digits;
    assert "-0"[1..] == "0";
  }

  lemma {:induction false} FormatIntParses(n: int)
    requires SafeInteger(n)
    ensures ParseInt(FormatInt(n)) == Some(n)
    ensures FormatInt(n) != "-0" && FormatInt(n) != "" && FormatInt(n)[0] != '+'
    ensures forall c | c in FormatInt(n) :: Digit(c) || c == '-'
  {
    if n < 0 {
      FormatNatParses(-n);
      Signed(FormatNat(-n));
    } else {
      FormatNatParses(n);
      assert Digit(FormatNat(n)[0]);
    }
  }

  /** Exactly the shortest decimal spellings of the safe integers are written. */
  lemma {:induction false} AcceptedIntegers(literal: string)
    ensures AppendInteger(literal).Some? <==> exists n :: SafeInteger(n) && literal == FormatInt(n)
    ensures AppendInteger(literal).Some? ==> AppendInteger(literal).value == literal
  {
    if n :| SafeInteger(n) && literal == FormatInt(n) {
      FormatIntParses(n);
    }
  }
}
