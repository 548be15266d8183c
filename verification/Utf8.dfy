/** The UTF-8 form of a text: Go strings are bytes, and hashes and length bounds work on them. */
module Utf8 {
  import opened Basics
  import opened LexOrder

  /** One scalar in one to four bytes, RFC 3629 section 3. */
  function EncodeChar(c: char): (bytes: seq<Byte>)
    ensures 1 <= |bytes| <= 4
  {
    var v := c as int;
    if v < 0x80 then [v]
    else if v < 0x800 then [0xC0 + v / 0x40, 0x80 + v % 0x40]
    else if v < 0x1_0000 then [0xE0 + v / 0x1000, 0x80 + v / 0x40 % 0x40, 0x80 + v % 0x40]
    else [0xF0 + v / 0x4_0000, 0x80 + v / 0x1000 % 0x40, 0x80 + v / 0x40 % 0x40, 0x80 + v % 0x40]
  }

  function Encode(s: string): seq<Byte> {
    if s == "" then [] else EncodeChar(s[0]) + Encode(s[1..])
  }

  /** The bytes of one scalar tell which scalar it was, whatever follows. */
  lemma {:induction false} CharInjective(a: char, b: char, x: seq<Byte>, y: seq<Byte>)
    requires EncodeChar(a) + x == EncodeChar(b) + y
    ensures a == b && x == y
  {
    var s, t := EncodeChar(a) + x, EncodeChar(b) + y;
    assert s[0] == EncodeChar(a)[0] == t[0] == EncodeChar(b)[0];
    LeadByte(a);
    LeadByte(b);
    var n := |EncodeChar(a)|;
    assert n == |EncodeChar(b)|;
    assert EncodeChar(a) == s[..n] == t[..n] == EncodeChar(b);
    assert x == s[n..] == t[n..] == y;
    ScalarFrom(a);
    ScalarFrom(b);
  }

  lemma LeadByte(c: char)
    ensures var bytes := EncodeChar(c);
            |bytes| == (if bytes[0] < 0x80 then 1 else if bytes[0] < 0xE0 then 2 else if bytes[0] < 0xF0 then 3 else 4)
  {
  }

  /** The scalar read back from its bytes. */
  function Scalar(bytes: seq<int>): int
    requires 1 <= |bytes| <= 4
  {
    if |bytes| == 1 then bytes[0]
    else if |bytes| == 2 then (bytes[0] - 0xC0) * 0x40 + (bytes[1] - 0x80)
    else if |bytes| == 3 then ((bytes[0] - 0xE0) * 0x40 + (bytes[1] - 0x80)) * 0x40 + (bytes[2] - 0x80)
    else (((bytes[0] - 0xF0) * 0x40 + (bytes[1] - 0x80)) * 0x40 + (bytes[2] - 0x80)) * 0x40 + (bytes[3] - 0x80)
  }

  lemma SixBitDigits(v: nat)
    ensures v / 0x40 * 0x40 + v % 0x40 == v
    ensures v / 0x1000 * 0x40 + v / 0x40 % 0x40 == v / 0x40
    ensures v / 0x4_0000 * 0x40 + v / 0x1000 % 0x40 == v / 0x1000
  {
  }

  lemma ScalarFrom(c: char)
    ensures Scalar(EncodeChar(c)) == c as int
  {
    SixBitDigits(c as int);
  }

  lemma {:induction false} EncodeInjective(a: string, b: string)
    requires Encode(a) == Encode(b)
    ensures a == b
  {
    if a != "" && b != "" {
      CharInjective(a[0], b[0], Encode(a[1..]), Encode(b[1..]));
      EncodeInjective(a[1..], b[1..]);
      assert a == [a[0]] + a[1..] && b == [b[0]] + b[1..];
    }
  }

  // ----- Order --------------------------------------------------------------------------------

  lemma {:induction false} LessAfter(prefix: seq<int>, x: seq<int>, y: seq<int>)
    ensures Less(prefix + x, prefix + y) <==> Less(x, y)
    decreases |prefix|
  {
    if prefix == [] {
      assert prefix + x == x && prefix + y == y;
    } else {
      assert (prefix + x)[1..] == prefix[1..] + x && (prefix + y)[1..] == prefix[1..] + y;
      LessAfter(prefix[1..], x, y);
    }
  }

  /** All bytes after the first. */
  predicate Continued(bytes: seq<int>) {
    1 <= |bytes| <= 4 && forall k | 1 <= k < |bytes| :: 0x80 <= bytes[k] < 0xC0
  }

  lemma CharContinued(c: char)
    ensures Continued(EncodeChar(c))
  {
  }

  /** Like digits, bytes of one length are decided by the first difference. */
  lemma ScalarGrows(p: seq<int>, q: seq<int>, k: nat)
    requires Continued(p) && Continued(q) && |p| == |q| && k < |p|
    requires p[k] < q[k] && forall i | 0 <= i < k :: p[i] == q[i]
    ensures Scalar(p) < Scalar(q)
  {
  }

  /** A first byte that tells the number of bytes, and the others. */
  predicate Sequence(bytes: seq<int>) {
    Continued(bytes) &&
    if |bytes| == 1 then 0 <= bytes[0] < 0x80
    else if |bytes| == 2 then 0xC0 <= bytes[0] < 0xE0
    else if |bytes| == 3 then 0xE0 <= bytes[0] < 0xF0
    else 0xF0 <= bytes[0] < 0xF8
  }

  lemma SequenceBound(bytes: seq<int>)
    requires Sequence(bytes)
    ensures Scalar(bytes) <
            if |bytes| == 1 then 0x80 else if |bytes| == 2 then 0x800 else if |bytes| == 3 then 0x1_0000 else 0x20_0000
  {
  }

  lemma {:induction false} SameBytes(p: seq<int>, q: seq<int>)
    requires Sequence(p) && Sequence(q) && |p| == |q| && Scalar(p) == Scalar(q)
    ensures p == q
  {
    hide Scalar;
    var k := 0;
    while k < |p| && p[k] == q[k]
      invariant k <= |p| && forall i | 0 <= i < k :: p[i] == q[i]
    {
      k := k + 1;
    }
    if k < |p| {
      if p[k] < q[k] {
        ScalarGrows(p, q, k);
      } else {
        ScalarGrows(q, p, k);
      }
    }
  }

  lemma CharSequence(c: char)
    ensures Sequence(EncodeChar(c))
    ensures c as int >=
            if |EncodeChar(c)| == 1 then 0 else if |EncodeChar(c)| == 2 then 0x80
            else if |EncodeChar(c)| == 3 then 0x800 else 0x1_0000
  {
  }

  /** The encoding of a scalar is the shortest sequence that stands for it. */
  lemma {:induction false} EncodeCharExactly(c: char, bytes: seq<int>)
    ensures bytes == EncodeChar(c) <==>
              && Sequence(bytes) && Scalar(bytes) == c as int
              && forall other | Sequence(other) && Scalar(other) == c as int :: |bytes| <= |other|
  {
    hide EncodeChar, Scalar;
    CharSequence(c);
    ScalarFrom(c);
    forall other | Sequence(other) && Scalar(other) == c as int ensures |EncodeChar(c)| <= |other| {
      SequenceBound(other);
    }
    if Sequence(bytes) && Scalar(bytes) == c as int && |bytes| <= |EncodeChar(c)| {
      SameBytes(bytes, EncodeChar(c));
    }
  }

  /** Fewer bytes mean a smaller scalar, and a smaller first byte. */
  lemma ShorterIsLess(a: char, b: char)
    requires |EncodeChar(a)| < |EncodeChar(b)|
    ensures a < b && EncodeChar(a)[0] < EncodeChar(b)[0]
  {
  }

  /** The first byte at which two scalars differ decides for the smaller one. */
  lemma {:induction false} CharOrder(a: char, b: char) returns (k: nat)
    requires a < b
    ensures k < |EncodeChar(a)| && k < |EncodeChar(b)|
    ensures EncodeChar(a)[..k] == EncodeChar(b)[..k] && EncodeChar(a)[k] < EncodeChar(b)[k]
  {
    hide EncodeChar, Scalar;
    var p, q := EncodeChar(a), EncodeChar(b);
    k := 0;
    if |p| < |q| {
      ShorterIsLess(a, b);
    } else if |q| < |p| {
      ShorterIsLess(b, a);
    } else {
      CharContinued(a);
      CharContinued(b);
      ScalarFrom(a);
      ScalarFrom(b);
      while k < |p| && p[k] == q[k]
        invariant k <= |p| && forall i | 0 <= i < k :: p[i] == q[i]
      {
        k := k + 1;
      }
      if k == |p| {
        assert p == q;
      } else if q[k] < p[k] {
        ScalarGrows(q, p, k);
      }
    }
  }

  lemma {:induction false} CharsDecide(a: char, b: char, x: seq<int>, y: seq<int>)
    requires a < b
    ensures Less(EncodeChar(a) + x, EncodeChar(b) + y)
  {
    var k := CharOrder(a, b);
    var s, t := EncodeChar(a) + x, EncodeChar(b) + y;
    assert s[..k] == EncodeChar(a)[..k] == EncodeChar(b)[..k] == t[..k];
    assert s[k] < t[k];
    LessMeansFirstDifference(s, t);
  }

  /** Comparing bytes, as `strings.Compare` and `<` do, is comparing scalars. */
  lemma {:induction false} BytesCompareLikeScalars(a: string, b: string)
    ensures Less(Encode(a), Encode(b)) <==> Less(Codes(a), Codes(b))
  {
    hide EncodeChar;
    if a != "" && b != "" {
      var x, y := Encode(a[1..]), Encode(b[1..]);
      assert Codes(a)[1..] == Codes(a[1..]) && Codes(b)[1..] == Codes(b[1..]);
      if a[0] == b[0] {
        LessAfter(EncodeChar(a[0]), x, y);
        BytesCompareLikeScalars(a[1..], b[1..]);
      } else if a[0] < b[0] {
        CharsDecide(a[0], b[0], x, y);
      } else {
        CharsDecide(b[0], a[0], y, x);
        LessTotal(Encode(a), Encode(b));
      }
    }
  }
}
