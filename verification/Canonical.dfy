/** The canonical printer (internal/canonical/canonical.go; RFC 8785 restricted to I-JSON integers). */
module Canonical {
  import opened Basics
  import opened Integers
  import opened Json
  import opened KeyOrder

  function HexDigit(d: int): (c: char)
    requires 0 <= d < 16
  {
    if d < 10 then (d + '0' as int) as char else (d - 10 + 'a' as int) as char
  }

  /** How one character is written inside a string, RFC 8785 section 3.2.2.2. */
  function Escape(c: char): string {
    if c == '"' || c == '\\' then ['\\', c]
    else if c as int == 8 then "\\b"
    else if c == '\t' then "\\t"
    else if c == '\n' then "\\n"
    else if c as int == 12 then "\\f"
    else if c == '\r' then "\\r"
    else if c as int < 0x20 then ['\\', 'u', '0', '0', HexDigit(c as int / 16), HexDigit(c as int % 16)]
    else [c]
  }

  function EscapeAll(s: string): string {
    if s == "" then "" else Escape(s[0]) + EscapeAll(s[1..])
  }

  function Quoted(s: string): string {
    "\"" + EscapeAll(s) + "\""
  }

  /** Every number is a safe integer in shortest form; nothing else is refused. */
  ghost predicate Printable(v: Value) {
    match v
    case Num(literal) => AppendInteger(literal).Some?
    case Arr(items) => forall i | 0 <= i < |items| :: Printable(items[i])
    case Obj(members) => forall k | k in members :: Printable(members[k])
    case _ => true
  }

  ghost function Print(v: Value): string
    requires Printable(v)
    decreases v, 1, 0
  {
    match v
    case Null => "null"
    case Bool(flag) => if flag then "true" else "false"
    case Num(literal) => literal
    case Str(text) => Quoted(text)
    case Arr(items) => "[" + ItemsText(v, |items|) + "]"
    case Obj(members) => "{" + MembersText(v, Sorted(members.Keys), |Sorted(members.Keys)|) + "}"
  }

  /** The first n items, separated by commas. */
  ghost function ItemsText(v: Value, n: nat): string
    requires v.Arr? && n <= |v.items| && forall i | 0 <= i < n :: Printable(v.items[i])
    decreases v, 0, n, 1
  {
    if n == 0 then "" else ItemsText(v, n - 1) + ItemPiece(v, n - 1)
  }

  ghost function ItemPiece(v: Value, i: nat): string
    requires v.Arr? && i < |v.items| && Printable(v.items[i])
    decreases v, 0, i + 1, 0
  {
    (if i > 0 then "," else "") + Print(v.items[i])
  }

  /** The members of the first n keys, separated by commas. */
  ghost function MembersText(v: Value, keys: seq<string>, n: nat): string
    requires v.Obj? && n <= |keys| && forall i | 0 <= i < n :: keys[i] in v.members && Printable(v.members[keys[i]])
    decreases v, 0, n, 1
  {
    if n == 0 then "" else MembersText(v, keys, n - 1) + MemberPiece(v, keys, n - 1)
  }

  ghost function MemberPiece(v: Value, keys: seq<string>, i: nat): string
    requires v.Obj? && i < |keys| && keys[i] in v.members && Printable(v.members[keys[i]])
    decreases v, 0, i + 1, 0
  {
    (if i > 0 then "," else "") + (Quoted(keys[i]) + (":" + Print(v.members[keys[i]])))
  }

  /** `bytes.Buffer`. */
  class Buffer {
    var text: string

    constructor ()
      ensures text == ""
    {
      text := "";
    }

    method Write(s: string)
      modifies this
      ensures text == old(text) + s
    {
      text := text + s;
    }
  }

  method AppendString(output: Buffer, value: string)
    modifies output
    ensures output.text == old(output.text) + Quoted(value)
  {
    ghost var before := output.text;
    output.Write("\"");
    var i := 0;
    while i < |value|
      invariant 0 <= i <= |value|
      invariant output.text == before + ("\"" + EscapeAll(value[..i]))
    {
      EscapeAllSnoc(value[..i], value[i]);
      assert value[..i + 1] == value[..i] + [value[i]];
      ThreeParts(before, "\"", EscapeAll(value[..i]), Escape(value[i]));
      output.Write(Escape(value[i]));
      i := i + 1;
    }
    assert value[..i] == value;
    output.Write("\"");
  }

  lemma ThreeParts(a: string, b: string, c: string, d: string)
    ensures a + (b + c) + d == a + (b + (c + d))
  {
  }

  lemma {:induction false} EscapeAllSnoc(s: string, c: char)
    ensures EscapeAll(s + [c]) == EscapeAll(s) + Escape(c)
  {
    if s == "" {
      assert [c][1..] == "";
    } else {
      assert (s + [c])[1..] == s[1..] + [c];
      EscapeAllSnoc(s[1..], c);
    }
  }

  /**
    `appendValue`: succeeds exactly on printable values and then writes their one
    canonical text, in whatever order the map hands out its keys.
   */
  method AppendValue(output: Buffer, value: Value) returns (ok: bool)
    modifies output
    decreases value, 1
    ensures ok <==> Printable(value)
    ensures ok ==> output.text == old(output.text) + Print(value)
  {
    match value {
      case Null =>
        output.Write("null");
      case Bool(flag) =>
        output.Write(if flag then "true" else "false");
      case Str(text) =>
        AppendString(output, text);
      case Num(literal) =>
        var written := AppendInteger(literal);
        AcceptedIntegers(literal);
        if written.None? {
          return false;
        }
        output.Write(written.value);
      case Arr(items) =>
        ok := AppendItems(output, value);
        return;
      case Obj(members) =>
        ok := AppendMembers(output, value);
        return;
    }
    ok := true;
  }

  method AppendItems(output: Buffer, value: Value) returns (ok: bool)
    requires value.Arr?
    modifies output
    decreases value, 0, 1
    ensures ok <==> Printable(value)
    ensures ok ==> output.text == old(output.text) + Print(value)
  {
    ghost var before := output.text;
    output.Write("[");
    var i := 0;
    while i < |value.items|
      invariant 0 <= i <= |value.items|
      invariant forall j | 0 <= j < i :: Printable(value.items[j])
      invariant output.text == before + ("[" + ItemsText(value, i))
    {
      ok := AppendItem(output, value, i);
      if !ok {
        return;
      }
      ThreeParts(before, "[", ItemsText(value, i), ItemPiece(value, i));
      i := i + 1;
    }
    output.Write("]");
    ThreeParts(before, "[", ItemsText(value, i), "]");
    ok := true;
  }

  method AppendItem(output: Buffer, value: Value, i: nat) returns (ok: bool)
    requires value.Arr? && i < |value.items|
    modifies output
    decreases value, 0, 0
    ensures ok <==> Printable(value.items[i])
    ensures ok ==> output.text == old(output.text) + ItemPiece(value, i)
  {
    hide Quoted, Sorted, Printable, AppendInteger;
    if i > 0 {
      output.Write(",");
    }
    ok := AppendValue(output, value.items[i]);
  }

  /** The map's keys in some order, then sorted. */
  method CollectKeys(value: Value) returns (keys: seq<string>)
    requires value.Obj?
    ensures keys == Sorted(value.members.Keys)
    ensures forall k :: k in keys <==> k in value.members
  {
    keys := [];
    var rest := value.members.Keys;
    while rest != {}
      invariant rest <= value.members.Keys && KeySet(keys) == value.members.Keys - rest
      invariant forall i, j | 0 <= i < j < |keys| :: keys[i] != keys[j]
    {
      var key :| key in rest;
      assert key !in KeySet(keys);
      KeySetConcat(keys, [key]);
      rest, keys := rest - {key}, keys + [key];
    }
    assert KeySet(keys) == value.members.Keys;
    keys := SortKeys(keys);
    forall k ensures k in keys <==> k in value.members {
      assert k in KeySet(keys) <==> k in keys;
    }
  }

  method AppendMembers(output: Buffer, value: Value) returns (ok: bool)
    requires value.Obj?
    modifies output
    decreases value, 0, 2
    ensures ok <==> Printable(value)
    ensures ok ==> output.text == old(output.text) + Print(value)
  {
    ghost var before := output.text;
    var keys := CollectKeys(value);
    output.Write("{");
    ok := AppendKeys(output, value, keys);
    if ok {
      AllListed(value, keys);
      ghost var text := MembersText(value, keys, |keys|);
      Regroup(before, "{", text);
      assert output.text == before + ("{" + text);
      ThreeParts(before, "{", text, "}");
      output.Write("}");
      Regroup("{", text, "}");
    }
  }

  method AppendKeys(output: Buffer, value: Value, keys: seq<string>) returns (ok: bool)
    requires value.Obj? && forall j | 0 <= j < |keys| :: keys[j] in value.members
    modifies output
    decreases value, 0, 1
    ensures ok <==> forall j | 0 <= j < |keys| :: Printable(value.members[keys[j]])
    ensures ok ==> output.text == old(output.text) + MembersText(value, keys, |keys|)
  {
    hide Quoted, Sorted, Printable;
    ghost var before := output.text;
    var i := 0;
    while i < |keys|
      invariant 0 <= i <= |keys|
      invariant forall j | 0 <= j < i :: Printable(value.members[keys[j]])
      invariant output.text == before + MembersText(value, keys, i)
    {
      ghost var text, piece := MembersText(value, keys, i), "";
      ok := AppendMember(output, value, keys, i);
      if !ok {
        return;
      }
      piece := MemberPiece(value, keys, i);
      Regroup(before, text, piece);
      assert MembersText(value, keys, i + 1) == text + piece;
      i := i + 1;
    }
    ok := true;
  }

  lemma Regroup(a: string, b: string, c: string)
    ensures a + b + c == a + (b + c)
  {
  }

  lemma AllListed(value: Value, keys: seq<string>)
    requires value.Obj? && (forall k | k in value.members :: k in keys)
    requires forall j | 0 <= j < |keys| :: keys[j] in value.members && Printable(value.members[keys[j]])
    ensures Printable(value)
  {
    forall k | k in value.members ensures Printable(value.members[k]) {
      var j :| 0 <= j < |keys| && keys[j] == k;
    }
  }

  method AppendMember(output: Buffer, value: Value, keys: seq<string>, i: nat) returns (ok: bool)
    requires value.Obj? && i < |keys| && keys[i] in value.members
    modifies output
    decreases value, 0, 0
    ensures ok <==> Printable(value.members[keys[i]])
    ensures ok ==> output.text == old(output.text) + MemberPiece(value, keys, i)
  {
    ghost var before := output.text;
    ghost var comma := if i > 0 then "," else "";
    if i > 0 {
      output.Write(",");
    }
    assert output.text == before + comma;
    AppendString(output, keys[i]);
    output.Write(":");
    ok := AppendValue(output, value.members[keys[i]]);
    if ok {
      FiveParts(before, comma, Quoted(keys[i]), ":", Print(value.members[keys[i]]));
    }
  }

  lemma FiveParts(a: string, b: string, c: string, d: string, e: string)
    ensures a + b + c + d + e == a + (b + (c + (d + e)))
  {
  }
}
