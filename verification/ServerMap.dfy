/** The parser's loop over a map of servers (`bindingsFromServerMap` in internal/hostprofile/parse.go). */
module ServerMap {
  import opened Basics
  import opened Bindings
  import opened BoundedDecoding
  import opened CleanPaths
  import opened Json
  import Utf8

  const MAXIMUM_CONFIG_SERVERS := 128

  const MAXIMUM_CONFIG_ARGS := 128

  /** Where the servers are read: for which host, in which form, and with which lower-casing. */
  datatype Dialect = Dialect(host: string, commandArray: bool, lower: string -> string)

  /** What one server entry becomes: remote ones are skipped, malformed or unsafe ones refuse the document. */
  datatype Projected = Skip | Bad | Good(raw: RawBinding)

  // ----- One server ------------------------------------------------------------------------

  predicate Alphanumeric(c: char) {
    'a' <= c <= 'z' || 'A' <= c <= 'Z' || '0' <= c <= '9'
  }

  /** `validateSafeIdentifier`. */
  predicate SafeIdentifier(s: string) {
    && 0 < |Utf8.Encode(s)| <= 128 && s != "" && Alphanumeric(s[0])
    && forall c | c in s :: Alphanumeric(c) || c == '.' || c == '_' || c == '-'
  }

  predicate Contains(s: string, part: string) {
    part <= s || (s != "" && Contains(s[1..], part))
  }

  /** `unsafeDynamic`. */
  predicate UnsafeDynamic(s: string) {
    '\0' in s || Contains(s, "${") || Contains(s, "$(") || '`' in s
  }

  function ForwardSlashes(s: string): string {
    seq(|s|, i requires 0 <= i < |s| => if s[i] == '\\' then '/' else s[i])
  }

  function TrimExe(s: string): string {
    if |s| >= 4 && s[|s| - 4..] == ".exe" then s[..|s| - 4] else s
  }

  predicate Shell(d: Dialect, command: string) {
    TrimExe(d.lower(Base(ForwardSlashes(command)))) in {"sh", "bash", "zsh", "fish", "cmd", "powershell", "pwsh"}
  }

  /** `validateDirectCommand`. */
  predicate DirectCommand(d: Dialect, command: string, args: seq<string>) {
    && command != "" && ShortText(command) && !UnsafeDynamic(command) && |args| <= MAXIMUM_CONFIG_ARGS
    && !Shell(d, command) && forall a | a in args :: a != "" && ShortText(a) && !UnsafeDynamic(a)
  }

  function Field(members: map<string, Value>, name: string): Option<Value> {
    if name in members then Some(members[name]) else None
  }

  /** `validateSecretMaps` for one of the four names. */
  predicate SecretMap(value: Option<Value>) {
    value.None? ||
    (value.value.Obj? && forall k | k in value.value.members ::
       SafeIdentifier(k) && value.value.members[k].Str? && ShortText(value.value.members[k].text))
  }

  predicate SecretMaps(server: map<string, Value>) {
    SecretMap(Field(server, "env")) && SecretMap(Field(server, "environment")) &&
    SecretMap(Field(server, "headers")) && SecretMap(Field(server, "http_headers"))
  }

  /** `stringSlice`; a missing value is no array. */
  function StringSlice(value: Option<Value>): Option<seq<string>> {
    if value.None? || !value.value.Arr? || |value.value.items| > MAXIMUM_CONFIG_ARGS ||
       exists v | v in value.value.items :: !v.Str?
    then None
    else Some(seq(|value.value.items|, i requires 0 <= i < |value.value.items| => TextOf(value.value.items[i])))
  }

  function TextOf(v: Value): string {
    if v.Str? then v.text else ""
  }

  /** `optionalStringSlice`; null is like a missing value. */
  function OptionalStringSlice(value: Option<Value>): Option<seq<string>> {
    if value.None? || value.value.Null? then Some([]) else StringSlice(value)
  }

  /** The command line, in one array or as a text and its arguments. */
  function CommandLine(d: Dialect, server: map<string, Value>): Option<seq<string>> {
    if d.commandArray then
      match StringSlice(Field(server, "command"))
      case Some(line) => if line == [] then None else Some(line)
      case None => None
    else
      match (Field(server, "command"), OptionalStringSlice(Field(server, "args")))
      case (Some(Str(command)), Some(args)) => Some([command] + args)
      case _ => None
  }

  predicate Remote(server: map<string, Value>) {
    "url" in server || ("type" in server && server["type"].Str? && server["type"].text !in {"stdio", "local"})
  }

  /** One turn of the loop.  What is bound runs one program directly: no shell, and nothing left to expand. */
  function Project(d: Dialect, name: string, value: Value): (r: Projected)
    ensures r.Good? ==> r.raw.serverName == name && r.raw.hostId == d.host && SafeIdentifier(name)
    ensures r.Good? ==> DirectCommand(d, r.raw.command, r.raw.args)
  {
    if !SafeIdentifier(name) || !value.Obj? then Bad
    else if Remote(value.members) then Skip
    else if !SecretMaps(value.members) then Bad
    else
      match CommandLine(d, value.members)
      case None => Bad
      case Some(line) =>
        if line == [] || !DirectCommand(d, line[0], line[1..]) then Bad
        else Good(RawBinding(d.host, name, line[0], line[1..]))
  }

  // ----- What one server becomes -------------------------------------------------------------

  /** A letter or digit, then up to 127 letters, digits, dots, underscores and hyphens. */
  predicate Name(s: string) {
    && 1 <= |s| <= 128 && s[0] !in {'.', '_', '-'}
    && forall i | 0 <= i < |s| ::
         'a' <= s[i] <= 'z' || 'A' <= s[i] <= 'Z' || '0' <= s[i] <= '9' || s[i] in {'.', '_', '-'}
  }

  /** At most 8192 bytes, and nothing a shell would expand. */
  predicate Plain(s: string) {
    && |Utf8.Encode(s)| <= 8192
    && forall i | 0 <= i < |s| ::
         s[i] !in {'\0', '`'} && (s[i] == '$' && i + 1 < |s| ==> s[i + 1] !in {'{', '('})
  }

  predicate ShellName(base: string) {
    exists shell | shell in ["sh", "bash", "zsh", "fish", "cmd", "powershell", "pwsh"] ::
      base == shell || base == shell + ".exe"
  }

  /** The command's last component, however it is separated, is no shell. */
  ghost predicate NoShell(d: Dialect, command: string) {
    forall path: string | |path| == |command| &&
      (forall i | 0 <= i < |path| :: path[i] == if command[i] == '\\' then '/' else command[i]) ::
      !ShellName(d.lower(Base(path)))
  }

  /** An array of at most 128 texts, these. */
  predicate Texts(value: Value, texts: seq<string>) {
    value.Arr? && |value.items| == |texts| <= 128 && forall i | 0 <= i < |texts| :: value.items[i] == Str(texts[i])
  }

  /** The configured command line, in either form. */
  predicate Configured(d: Dialect, server: map<string, Value>, command: string, args: seq<string>) {
    "command" in server &&
    if d.commandArray then Texts(server["command"], [command] + args)
    else
      server["command"] == Str(command) &&
      if "args" !in server || server["args"] == Null then args == [] else Texts(server["args"], args)
  }

  /** Run by the host itself. */
  predicate Local(server: map<string, Value>) {
    "url" !in server && ("type" in server && server["type"].Str? ==> server["type"].text in {"stdio", "local"})
  }

  /** Secrets come as maps from names to short texts. */
  predicate SecretsWellFormed(server: map<string, Value>) {
    forall field | field in {"env", "environment", "headers", "http_headers"} && field in server ::
      server[field].Obj? && forall k | k in server[field].members ::
        Name(k) && server[field].members[k].Str? && |Utf8.Encode(server[field].members[k].text)| <= 8192
  }

  ghost predicate Safe(d: Dialect, command: string, args: seq<string>) {
    command != "" && Plain(command) && NoShell(d, command) && |args| <= 128 &&
    forall i | 0 <= i < |args| :: args[i] != "" && Plain(args[i])
  }

  lemma {:induction false} NameBytes(s: string)
    requires forall c | c in s :: Alphanumeric(c) || c == '.' || c == '_' || c == '-'
    ensures |Utf8.Encode(s)| == |s|
  {
    if s != "" {
      assert s[0] in s;
      NameBytes(s[1..]);
    }
  }

  lemma {:induction false} SafeIdentifierExactly(s: string)
    ensures SafeIdentifier(s) <==> Name(s)
  {
    if SafeIdentifier(s) {
      NameBytes(s);
      forall i | 0 <= i < |s| ensures Alphanumeric(s[i]) || s[i] in {'.', '_', '-'} {
        assert s[i] in s;
      }
    }
    if Name(s) {
      forall c | c in s ensures Alphanumeric(c) || c == '.' || c == '_' || c == '-' {
        var i :| 0 <= i < |s| && s[i] == c;
      }
      NameBytes(s);
    }
  }

  lemma {:induction false} PairContained(s: string, a: char, b: char)
    ensures Contains(s, [a, b]) <==> exists i :: 0 <= i < |s| - 1 && s[i] == a && s[i + 1] == b
  {
    if s != "" {
      PairContained(s[1..], a, b);
      assert [a, b] <= s <==> (|s| > 1 && s[0] == a && s[1] == b);
      if i :| 0 <= i < |s| - 1 && s[i] == a && s[i + 1] == b {
        assert i == 0 || (s[1..][i - 1] == a && s[1..][i - 1 + 1] == b);
      }
      if i :| 0 <= i < |s[1..]| - 1 && s[1..][i] == a && s[1..][i + 1] == b {
        assert s[i + 1] == a && s[i + 1 + 1] == b;
      }
    }
  }

  lemma {:induction false} PlainExactly(s: string)
    ensures Plain(s) <==> ShortText(s) && !UnsafeDynamic(s)
  {
    hide Contains, Utf8.Encode;
    PairContained(s, '$', '{');
    PairContained(s, '$', '(');
    assert "${" == ['$', '{'] && "$(" == ['$', '('];
    assert ('\0' in s || '`' in s) <==> exists i :: 0 <= i < |s| && s[i] in {'\0', '`'};
  }

  lemma {:induction false} NoShellExactly(d: Dialect, command: string)
    ensures NoShell(d, command) <==> !Shell(d, command)
  {
    hide Base, ShellName, TrimExe;
    var path := ForwardSlashes(command);
    var base := d.lower(Base(path));
    forall p: string | |p| == |command| &&
      forall i | 0 <= i < |p| :: p[i] == if command[i] == '\\' then '/' else command[i]
      ensures p == path
    {
    }
    TrimExactly(base);
  }

  lemma TrimmedTo(base: string, shell: string)
    requires '.' !in shell
    ensures TrimExe(base) == shell <==> base == shell || base == shell + ".exe"
  {
    if |base| >= 4 && base[|base| - 4..] == ".exe" {
      assert base == base[..|base| - 4] + ".exe" && base[|base| - 4] == base[|base| - 4..][0];
    }
    assert (shell + ".exe")[|shell|..] == ".exe" && (shell + ".exe")[..|shell|] == shell;
  }

  lemma TrimExactly(base: string)
    ensures TrimExe(base) in {"sh", "bash", "zsh", "fish", "cmd", "powershell", "pwsh"} <==>
            ShellName(base)
  {
    hide TrimExe;
    var shells := ["sh", "bash", "zsh", "fish", "cmd", "powershell", "pwsh"];
    assert forall shell | shell in shells :: '.' !in shell;
    forall shell | shell in shells
      ensures TrimExe(base) == shell <==> base == shell || base == shell + ".exe"
    {
      TrimmedTo(base, shell);
    }
    assert TrimExe(base) in shells <==>
           TrimExe(base) in {"sh", "bash", "zsh", "fish", "cmd", "powershell", "pwsh"};
  }

  lemma {:induction false} SafeExactly(d: Dialect, command: string, args: seq<string>)
    ensures Safe(d, command, args) <==> DirectCommand(d, command, args)
  {
    hide Plain, ShortText, UnsafeDynamic, NoShell, Shell;
    PlainExactly(command);
    NoShellExactly(d, command);
    forall i | 0 <= i < |args| ensures Plain(args[i]) <==> ShortText(args[i]) && !UnsafeDynamic(args[i]) {
      PlainExactly(args[i]);
    }
    if DirectCommand(d, command, args) {
      assert forall i | 0 <= i < |args| :: args[i] in args;
    }
  }

  lemma {:induction false} SecretsExactly(server: map<string, Value>)
    ensures SecretsWellFormed(server) <==> SecretMaps(server)
  {
    hide SafeIdentifier, Name, Utf8.Encode;
    forall k: string ensures SafeIdentifier(k) <==> Name(k) {
      SafeIdentifierExactly(k);
    }
    forall field | field in {"env", "environment", "headers", "http_headers"}
      ensures SecretMap(Field(server, field)) <==>
              (field in server ==>
                 server[field].Obj? && forall k | k in server[field].members ::
                   Name(k) && server[field].members[k].Str? && |Utf8.Encode(server[field].members[k].text)| <= 8192)
    {
    }
  }

  lemma {:induction false} TextsExactly(value: Value, texts: seq<string>)
    ensures Texts(value, texts) <==> StringSlice(Some(value)) == Some(texts)
  {
    if value.Arr? {
      assert (forall v | v in value.items :: v.Str?) <==> forall i | 0 <= i < |value.items| :: value.items[i].Str?;
      if StringSlice(Some(value)).Some? {
        var read := StringSlice(Some(value)).value;
        assert forall i | 0 <= i < |read| :: value.items[i] == Str(read[i]);
        assert Texts(value, texts) ==> read == texts;
      }
    }
  }

  lemma {:induction false} ConfiguredExactly(d: Dialect, server: map<string, Value>, command: string,
                                             args: seq<string>)
    ensures Configured(d, server, command, args) <==> CommandLine(d, server) == Some([command] + args)
  {
    hide StringSlice, Texts;
    if d.commandArray {
      if "command" in server {
        TextsExactly(server["command"], [command] + args);
      }
      NothingThere();
    } else {
      if "args" in server {
        TextsExactly(server["args"], args);
      }
      assert forall other: seq<string> :: [command] + other == [command] + args ==>
               ([command] + other)[1..] == ([command] + args)[1..];
      assert forall other: seq<string> :: ([command] + other)[1..] == other;
    }
  }

  lemma NothingThere()
    ensures StringSlice(None) == None
  {
  }

  /**
    A server is bound exactly if it is local, well formed and safe, to the command and the
    arguments configured; it is skipped exactly if it is remote; and refused otherwise.
   */
  lemma {:induction false} ProjectExactly(d: Dialect, name: string, value: Value, raw: RawBinding)
    ensures Project(d, name, value) == Good(raw) <==>
              && raw.hostId == d.host && raw.serverName == name && Name(name)
              && value.Obj? && Local(value.members) && SecretsWellFormed(value.members)
              && Configured(d, value.members, raw.command, raw.args) && Safe(d, raw.command, raw.args)
    ensures Project(d, name, value) == Skip <==> Name(name) && value.Obj? && !Local(value.members)
  {
    hide SafeIdentifier, Name, SecretMaps, SecretsWellFormed, CommandLine, Configured, DirectCommand, Safe;
    SafeIdentifierExactly(name);
    if value.Obj? {
      SecretsExactly(value.members);
      ConfiguredExactly(d, value.members, raw.command, raw.args);
      SafeExactly(d, raw.command, raw.args);
      assert ([raw.command] + raw.args)[0] == raw.command && ([raw.command] + raw.args)[1..] == raw.args;
      if CommandLine(d, value.members).Some? && CommandLine(d, value.members).value != [] {
        var line := CommandLine(d, value.members).value;
        assert line == [line[0]] + line[1..];
      }
    }
  }

  // ----- All servers -----------------------------------------------------------------------

  ghost predicate Yields(servers: map<string, Value>, d: Dialect, raw: RawBinding) {
    raw.serverName in servers && Project(d, raw.serverName, servers[raw.serverName]) == Good(raw)
  }

  /** Exactly the good servers, each once, in some order. */
  ghost predicate Extracts(servers: map<string, Value>, d: Dialect, raws: seq<RawBinding>) {
    && (forall i, j | 0 <= i < j < |raws| :: raws[i].serverName != raws[j].serverName)
    && (forall raw :: raw in raws <==> Yields(servers, d, raw))
  }

  ghost predicate NoneBad(servers: map<string, Value>, names: set<string>, d: Dialect)
    requires names <= servers.Keys
  {
    forall name | name in names :: !Project(d, name, servers[name]).Bad?
  }

  /** The document is refused unless the value is an object of at most 128 servers, none of them bad. */
  ghost predicate Extractable(value: Option<Value>, d: Dialect) {
    && value.Some? && value.value.Obj? && |value.value.members| <= MAXIMUM_CONFIG_SERVERS
    && NoneBad(value.value.members, value.value.members.Keys, d)
  }

  /** Whatever order the map hands out its servers in. */
  method BindingsFromServerMap(value: Option<Value>, d: Dialect) returns (r: Option<seq<RawBinding>>)
    ensures r.Some? <==> Extractable(value, d)
    ensures r.Some? ==> Extracts(value.value.members, d, r.value)
  {
    hide Project;
    if value.None? || !value.value.Obj? {
      return None;
    }
    var servers := value.value.members;
    if |servers| > MAXIMUM_CONFIG_SERVERS {
      return None;
    }
    var result: seq<RawBinding> := [];
    var rest := servers.Keys;
    while rest != {}
      invariant rest <= servers.Keys && NoneBad(servers, servers.Keys - rest, d)
      invariant forall i, j | 0 <= i < j < |result| :: result[i].serverName != result[j].serverName
      invariant forall raw :: raw in result <==> raw.serverName !in rest && Yields(servers, d, raw)
    {
      var name :| name in rest;
      match Project(d, name, servers[name]) {
        case Bad =>
          return None;
        case Skip =>
        case Good(raw) =>
          assert forall i | 0 <= i < |result| :: result[i] in result;
          result := result + [raw];
      }
      rest := rest - {name};
    }
    r := Some(result);
  }

  /** Two parses of one document differ at most in order, and no ID occurs twice in either. */
  lemma {:induction false} ParsesAgree(hash: Hash, configHash: string, servers: map<string, Value>, d: Dialect,
                                       one: seq<RawBinding>, two: seq<RawBinding>)
    requires Extracts(servers, d, one) && Extracts(servers, d, two)
    ensures UniqueIds(BindingsOf(hash, Parsed(configHash, one)))
    ensures SameMembers(BindingsOf(hash, Parsed(configHash, one)), BindingsOf(hash, Parsed(configHash, two)))
  {
    hide Project;
    var x, y := BindingsOf(hash, Parsed(configHash, one)), BindingsOf(hash, Parsed(configHash, two));
    ParsedUnique(hash, configHash, servers, d, one);
    forall b ensures b in x <==> b in y {
      if b in x {
        Carried(hash, configHash, one, two, b);
      }
      if b in y {
        Carried(hash, configHash, two, one, b);
      }
    }
  }

  lemma {:induction false} ParsedUnique(hash: Hash, configHash: string, servers: map<string, Value>, d: Dialect,
                                        raws: seq<RawBinding>)
    requires Extracts(servers, d, raws)
    ensures UniqueIds(BindingsOf(hash, Parsed(configHash, raws)))
  {
    hide NewBinding, BindingsOf, Project, DirectCommand, SafeIdentifier;
    var x := BindingsOf(hash, Parsed(configHash, raws));
    BindingsAre(hash, Parsed(configHash, raws));
    forall b, c | b in x && c in x && b.id == c.id ensures b == c {
      var i :| 0 <= i < |raws| && x[i] == b;
      var j :| 0 <= j < |raws| && x[j] == c;
      assert raws[i] in raws && raws[j] in raws;
      SameName(hash, configHash, raws[i], raws[j]);
      SamePlace(raws, i, j);
    }
  }

  lemma SameName(hash: Hash, configHash: string, a: RawBinding, b: RawBinding)
    requires a.hostId == b.hostId && NewBinding(hash, a, configHash).id == NewBinding(hash, b, configHash).id
    ensures a.serverName == b.serverName
  {
    var head := a.hostId + ".";
    assert (head + a.serverName)[|head|..] == a.serverName && (head + b.serverName)[|head|..] == b.serverName;
  }

  lemma SamePlace(raws: seq<RawBinding>, i: nat, j: nat)
    requires forall k, l | 0 <= k < l < |raws| :: raws[k].serverName != raws[l].serverName
    requires i < |raws| && j < |raws| && raws[i].serverName == raws[j].serverName
    ensures i == j
  {
  }

  lemma Carried(hash: Hash, configHash: string, one: seq<RawBinding>, two: seq<RawBinding>, b: Binding)
    requires b in BindingsOf(hash, Parsed(configHash, one)) && forall raw | raw in one :: raw in two
    ensures b in BindingsOf(hash, Parsed(configHash, two))
  {
    var i :| 0 <= i < |one| && BindingsOf(hash, Parsed(configHash, one))[i] == b;
    assert one[i] in two;
    var j :| 0 <= j < |two| && two[j] == one[i];
    assert BindingsOf(hash, Parsed(configHash, two))[j] == b;
  }
}
