/** `decodeOne` and `decodeValue` of internal/contract/validator.go. */
module StrictDecoder {
  import opened Basics
  import opened Json
  import opened JsonLexer

  /** A decoded value and the tokens after it. */
  type Step = Option<(Value, seq<Token>)>

  function Decode(tokens: seq<Token>): (r: Step)
    ensures r.Some? ==> |r.value.1| < |tokens|
    decreases |tokens|, 1
  {
    if tokens == [] then None
    else
      match tokens[0]
      case Text(s) => Some((Str(s), tokens[1..]))
      case Number(literal) => Some((Num(literal), tokens[1..]))
      case True => Some((Bool(true), tokens[1..]))
      case False => Some((Bool(false), tokens[1..]))
      case Nil => Some((Null, tokens[1..]))
      case OpenBrace => DecodeMembers(tokens[1..], map[])
      case OpenBracket => DecodeItems(tokens[1..], [])
      case _ => None
  }

  /** After the first element a comma must come, and it must be followed by another element. */
  function Separated(tokens: seq<Token>, first: bool): (r: Option<seq<Token>>)
    ensures r.Some? ==> |r.value| <= |tokens|
  {
    if first then Some(tokens) else if tokens != [] && tokens[0] == Comma then Some(tokens[1..]) else None
  }

  /** The object loop, with the members read so far. */
  function DecodeMembers(tokens: seq<Token>, members: map<string, Value>): (r: Step)
    ensures r.Some? ==> |r.value.1| < |tokens|
    decreases |tokens|, 0
  {
    if tokens == [] then None
    else if tokens[0] == CloseBrace then Some((Obj(members), tokens[1..]))
    else
      match MemberStart(tokens, members)
      case None => None
      case Some((key, after)) =>
        match Decode(after)
        case None => None
        case Some((value, rest)) => DecodeMembers(rest, members[key := value])
  }

  /** Comma if needed, a key not seen before, and a colon. */
  function MemberStart(tokens: seq<Token>, members: map<string, Value>): (r: Option<(string, seq<Token>)>)
    ensures r.Some? ==> |r.value.1| < |tokens|
  {
    match Separated(tokens, members == map[])
    case None => None
    case Some(ts) =>
      if |ts| >= 2 && ts[0].Text? && ts[1] == Colon && ts[0].text !in members then Some((ts[0].text, ts[2..])) else None
  }

  function DecodeItems(tokens: seq<Token>, items: seq<Value>): (r: Step)
    ensures r.Some? ==> |r.value.1| < |tokens|
    decreases |tokens|, 2
  {
    if tokens == [] then None
    else if tokens[0] == CloseBracket then Some((Arr(items), tokens[1..]))
    else
      match Separated(tokens, items == [])
      case None => None
      case Some(ts) =>
        match Decode(ts)
        case None => None
        case Some((value, rest)) => DecodeItems(rest, items + [value])
  }

  /** One complete value and nothing after it. */
  function DecodeOne(document: string): Option<Value> {
    match Lex(document)
    case None => None
    case Some(tokens) =>
      match Decode(tokens)
      case None => None
      case Some((value, rest)) => if rest == [] then Some(value) else None
  }

  // ----- The loops as the program runs them -------------------------------------------

  /** `json.Decoder`: the tokens not yet read. */
  class TokenStream {
    var rest: seq<Token>

    constructor (tokens: seq<Token>)
      ensures rest == tokens
    {
      rest := tokens;
    }

    method Next() returns (r: Option<Token>)
      modifies this
      ensures old(rest) == [] ==> r.None? && rest == []
      ensures old(rest) != [] ==> r == Some(old(rest)[0]) && rest == old(rest)[1..]
    {
      if rest == [] {
        return None;
      }
      r, rest := Some(rest[0]), rest[1..];
    }

    /** Whether another element or member follows. */
    method More() returns (r: bool)
      ensures r <==> rest != [] && rest[0] != CloseBrace && rest[0] != CloseBracket
    {
      r := rest != [] && rest[0] != CloseBrace && rest[0] != CloseBracket;
    }

    /** The decoder insists on the comma itself. */
    method Separate(first: bool) returns (ok: bool)
      modifies this
      ensures ok <==> Separated(old(rest), first).Some?
      ensures ok ==> rest == Separated(old(rest), first).value
    {
      if first {
        return true;
      }
      ok := rest != [] && rest[0] == Comma;
      if ok {
        rest := rest[1..];
      }
    }
  }

  method DecodeValue(stream: TokenStream) returns (r: Option<Value>)
    modifies stream
    decreases |stream.rest|, 0
    ensures match Decode(old(stream.rest))
            case None => r.None?
            case Some((value, rest)) => r == Some(value) && stream.rest == rest
  {
    var token := stream.Next();
    if token.None? {
      return None;
    }
    match token.value {
      case Text(s) => r := Some(Str(s));
      case Number(literal) => r := Some(Num(literal));
      case True => r := Some(Bool(true));
      case False => r := Some(Bool(false));
      case Nil => r := Some(Null);
      case OpenBrace => r := DecodeObject(stream);
      case OpenBracket => r := DecodeArray(stream);
      case _ => r := None;
    }
  }

  method DecodeObject(stream: TokenStream) returns (r: Option<Value>)
    modifies stream
    decreases |stream.rest|, 1
    ensures match DecodeMembers(old(stream.rest), map[])
            case None => r.None?
            case Some((value, rest)) => r == Some(value) && stream.rest == rest
  {
    var members: map<string, Value> := map[];
    var more := stream.More();
    while more
      invariant |stream.rest| <= |old(stream.rest)|
      invariant DecodeMembers(stream.rest, members) == DecodeMembers(old(stream.rest), map[])
      invariant more <==> stream.rest != [] && stream.rest[0] != CloseBrace && stream.rest[0] != CloseBracket
      decreases |stream.rest|
    {
      var separated := stream.Separate(members == map[]);
      if !separated {
        return None;
      }
      var key := stream.Next();
      if key.None? || !key.value.Text? || key.value.text in members {
        return None;
      }
      var colon := stream.Next();
      if colon != Some(Colon) {
        return None;
      }
      var value := DecodeValue(stream);
      if value.None? {
        return None;
      }
      members := members[key.value.text := value.value];
      more := stream.More();
    }
    var closing := stream.Next();
    if closing != Some(CloseBrace) {
      return None;
    }
    return Some(Obj(members));
  }

  method DecodeArray(stream: TokenStream) returns (r: Option<Value>)
    modifies stream
    decreases |stream.rest|, 1
    ensures match DecodeItems(old(stream.rest), [])
            case None => r.None?
            case Some((value, rest)) => r == Some(value) && stream.rest == rest
  {
    var items: seq<Value> := [];
    var more := stream.More();
    while more
      invariant |stream.rest| <= |old(stream.rest)|
      invariant DecodeItems(stream.rest, items) == DecodeItems(old(stream.rest), [])
      invariant more <==> stream.rest != [] && stream.rest[0] != CloseBrace && stream.rest[0] != CloseBracket
      decreases |stream.rest|
    {
      var separated := stream.Separate(items == []);
      if !separated {
        return None;
      }
      var value := DecodeValue(stream);
      if value.None? {
        return None;
      }
      items := items + [value.value];
      more := stream.More();
    }
    var closing := stream.Next();
    if closing != Some(CloseBracket) {
      return None;
    }
    return Some(Arr(items));
  }
}
