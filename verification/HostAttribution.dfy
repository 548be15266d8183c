/** The host attribution of a proof (internal/app/service.go, schemas/agent-runtime-proof-1.0.schema.json). */
module HostAttribution {
  import opened Basics
  import opened Bindings
  import opened BoundedDecoding
  import opened CleanPaths
  import opened Json
  import opened ServerMap
  import Utf8

  const MAXIMUM_IDENTIFIER := 128

  datatype Attribution = Attribution(hostId: string, bindingId: string, configSourceHash: string, bound: bool)

  /** `attribution`. */
  function AttributionOf(binding: Binding): Attribution {
    Attribution(binding.hostId, binding.id, binding.configSourceHash, binding.bound)
  }

  predicate IdentifierChar(c: char) {
    Alphanumeric(c) || c == '.' || c == '_' || c == '-'
  }

  /** The proof schema's pattern for host and binding identifiers. */
  predicate Identifier(s: string) {
    1 <= |s| <= MAXIMUM_IDENTIFIER && Alphanumeric(s[0]) && forall c | c in s :: IdentifierChar(c)
  }

  /** The host profile schema's pattern for host identifiers. */
  predicate ProfileIdentifier(s: string) {
    1 <= |s| <= 64 && s[0] != '-' && forall c | c in s :: 'a' <= c <= 'z' || '0' <= c <= '9' || c == '-'
  }

  /** What the schema accepts; an empty binding identifier is left out of the document. */
  predicate HostFits(host: Option<Attribution>) {
    host.None? ||
    (Identifier(host.value.hostId) && (host.value.bindingId == "" || Identifier(host.value.bindingId)))
  }

  /** Host and binding are each a letter or digit and up to 127 letters, digits, dots, underscores and hyphens. */
  lemma {:induction false} HostFitsExactly(host: Attribution)
    ensures HostFits(Some(host)) <==> Name(host.hostId) && (host.bindingId == "" || Name(host.bindingId))
  {
    SafeIsIdentifier(host.hostId);
    SafeIsIdentifier(host.bindingId);
    SafeIdentifierExactly(host.hostId);
    SafeIdentifierExactly(host.bindingId);
  }

  /** Every catalogued host identifier is one of a proof. */
  lemma ProfileIdentifierFits(s: string)
    requires ProfileIdentifier(s)
    ensures Identifier(s)
  {
    assert s[0] in s;
  }

  lemma {:induction false} PlainBytes(s: string)
    requires forall c | c in s :: IdentifierChar(c)
    ensures |Utf8.Encode(s)| == |s|
  {
    if s != "" {
      assert s[0] in s;
      PlainBytes(s[1..]);
    }
  }

  /** A safe server name is an identifier by itself, its bytes being its characters. */
  lemma {:induction false} SafeIsIdentifier(s: string)
    ensures SafeIdentifier(s) <==> Identifier(s)
  {
    if forall c | c in s :: IdentifierChar(c) {
      PlainBytes(s);
    }
  }

  /**
    Host and server name may both be identifiers while the binding's, which joins them, is
    not: it fits exactly when the two and the dot between them do.
   */
  lemma {:induction false} BindingFitsExactly(hash: Hash, d: Dialect, name: string, value: Value, configHash: string)
    requires ProfileIdentifier(d.host) && Project(d, name, value).Good?
    ensures var binding := NewBinding(hash, Project(d, name, value).raw, configHash);
            HostFits(Some(AttributionOf(binding))) <==> |d.host| + 1 + |name| <= MAXIMUM_IDENTIFIER
  {
    hide Project, DirectCommand, SafeIdentifier;
    ProfileIdentifierFits(d.host);
    SafeIsIdentifier(name);
    var id := d.host + "." + name;
    assert id[0] == d.host[0] && |id| == |d.host| + 1 + |name|;
    forall c | c in id ensures IdentifierChar(c) {
      assert c in d.host || c == '.' || c in name;
    }
  }

  lemma {:induction false} NotContained(s: string, part: string)
    requires part != "" && part[0] !in s
    ensures !Contains(s, part)
  {
    if s != "" {
      NotContained(s[1..], part);
    }
  }

  lemma NotShell(d: Dialect)
    requires d.lower("node") == "node"
    ensures !Shell(d, "node")
  {
    hide Base;
    assert ForwardSlashes("node") == "node";
    PlainBase("node");
    var shells := ["sh", "bash", "zsh", "fish", "cmd", "powershell", "pwsh"];
    assert "node"[0] == 'n' && forall shell | shell in shells :: shell[0] != 'n';
  }

  lemma PlainDirect(d: Dialect)
    requires d.lower("node") == "node"
    ensures DirectCommand(d, "node", [])
  {
    hide Shell, Contains, Utf8.Encode;
    NotShell(d);
    NotContained("node", "${");
    NotContained("node", "$(");
    PlainBytes("node");
  }

  /** A server the parser accepts under a catalogued host, and an attribution the schema refuses. */
  lemma {:induction false} LongServerName(hash: Hash, d: Dialect, name: string, configHash: string)
    requires d == Dialect("codex", false, d.lower) && d.lower("node") == "node"
    requires name == seq(128, i => 'a')
    ensures ProfileIdentifier(d.host) && Project(d, name, Obj(map["command" := Str("node")])).Good?
    ensures var raw := Project(d, name, Obj(map["command" := Str("node")])).raw;
            !HostFits(Some(AttributionOf(NewBinding(hash, raw, configHash))))
  {
    hide DirectCommand, HostFits, NewBinding, SafeIdentifier;
    var server: map<string, Value> := map["command" := Str("node")];
    assert |name| == 128 && forall c | c in name :: c == 'a';
    SafeIsIdentifier(name);
    PlainDirect(d);
    assert ["node"][1..] == [];
    assert ["node"] + [] == ["node"];
    assert CommandLine(d, server) == Some(["node"] + []);
    BindingFitsExactly(hash, d, name, Obj(server), configHash);
  }
}
