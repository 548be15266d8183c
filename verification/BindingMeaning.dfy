/** What bindings say about the servers configured and the processes running (internal/hostprofile/binding.go). */
module BindingMeaning {
  import opened Basics
  import opened Bindings
  import opened CleanMeaning
  import opened CleanPaths
  import opened HostAttribution
  import opened Json
  import opened Observations
  import opened ServerMap

  /** One numbered fingerprint for each argument, as `newBinding` and `observeArguments` make them. */
  predicate Prints(hash: Hash, args: seq<string>, prints: seq<Fingerprint>) {
    |prints| == |args| &&
    forall i | 0 <= i < |args| ::
      prints[i].position == i + 1 && prints[i].sha256 == hash("arp:host-argument:v1", args[i])
  }

  ghost predicate Distinguishes(hash: Hash) {
    forall a, b | hash("arp:host-argument:v1", a) == hash("arp:host-argument:v1", b) :: a == b
  }

  lemma {:induction false} PrintsTell(hash: Hash, a: seq<string>, b: seq<string>, x: seq<Fingerprint>,
                                      y: seq<Fingerprint>)
    requires Distinguishes(hash) && Prints(hash, a, x) && Prints(hash, b, y)
    ensures x == y <==> a == b
  {
    if x == y {
      forall i | 0 <= i < |a| ensures a[i] == b[i] {
        assert x[i].sha256 == y[i].sha256;
      }
    }
    if a == b {
      forall i | 0 <= i < |a| ensures x[i] == y[i] {
      }
    }
  }

  /** The process runs the configured command with the configured arguments. */
  predicate Runs(raw: RawBinding, candidate: Candidate, args: seq<string>) {
    && raw.command != "" && raw.command[0] == '/' && args == raw.args
    && CleanText(raw.command) ==
       CleanText(if candidate.declaredPath != "" then candidate.declaredPath else candidate.executablePath)
  }

  lemma {:induction false} HitExactly(hash: Hash, raw: RawBinding, configHash: string, candidate: Candidate,
                                      args: seq<string>)
    requires Distinguishes(hash) && Prints(hash, args, candidate.arguments) && Absolute(raw.command)
    ensures Hit(NewBinding(hash, raw, configHash), candidate) <==> Runs(raw, candidate, args)
  {
    var binding := NewBinding(hash, raw, configHash);
    var path := if candidate.declaredPath == "" then candidate.executablePath else candidate.declaredPath;
    PrintsTell(hash, args, raw.args, candidate.arguments, binding.argumentFingerprints);
    CleanAgain(raw.command);
    RenderInjective(path, binding.resolvedCommand);
  }

  /** The command lines behind the fingerprints of the candidates. */
  ghost predicate CommandLines(hash: Hash, candidates: seq<Candidate>, lines: seq<seq<string>>) {
    |lines| == |candidates| && forall i | 0 <= i < |candidates| :: Prints(hash, lines[i], candidates[i].arguments)
  }

  ghost predicate OnlyOne(raw: RawBinding, candidates: seq<Candidate>, lines: seq<seq<string>>, i: nat)
    requires |lines| == |candidates|
  {
    i < |candidates| && forall j | 0 <= j < |candidates| :: Runs(raw, candidates[j], lines[j]) <==> j == i
  }

  /**
    Matching a configured server: the one process that runs its command with its arguments;
    not running if none does, ambiguous if several do.
   */
  lemma {:induction false} MatchExactly(hash: Hash, raw: RawBinding, configHash: string, candidates: seq<Candidate>,
                                        lines: seq<seq<string>>, r: Result<Candidate, HostCode>)
    requires Distinguishes(hash) && CommandLines(hash, candidates, lines)
    requires Chosen(NewBinding(hash, raw, configHash), candidates, r)
    ensures r.Ok? ==> exists i: nat :: OnlyOne(raw, candidates, lines, i) && r.value == candidates[i]
    ensures r == Err(HostProcessNotRunning) <==> forall j | 0 <= j < |candidates| :: !Runs(raw, candidates[j], lines[j])
    ensures r == Err(HostProcessAmbiguous) <==>
              (exists i, j :: 0 <= i < j < |candidates| && Runs(raw, candidates[i], lines[i]) &&
                              Runs(raw, candidates[j], lines[j]))
  {
    hide Hit, Runs, NewBinding;
    var binding := NewBinding(hash, raw, configHash);
    BoundExactly(hash, raw, configHash);
    if Absolute(raw.command) {
      forall j | 0 <= j < |candidates| ensures Hit(binding, candidates[j]) <==> Runs(raw, candidates[j], lines[j]) {
        HitExactly(hash, raw, configHash, candidates[j], lines[j]);
      }
      if r.Ok? {
        var i: nat :| OnlyHit(binding, candidates, i) && candidates[i] == r.value;
        assert OnlyOne(raw, candidates, lines, i);
      }
    } else {
      forall j | 0 <= j < |candidates| ensures !Runs(raw, candidates[j], lines[j]) {
        RunsAbsolute(raw, candidates[j], lines[j]);
      }
    }
  }

  lemma RunsAbsolute(raw: RawBinding, candidate: Candidate, args: seq<string>)
    ensures Runs(raw, candidate, args) ==> Absolute(raw.command)
  {
  }

  /** What a binding keeps of the server it was made from. */
  lemma {:induction false} BoundExactly(hash: Hash, raw: RawBinding, configHash: string)
    ensures var b := NewBinding(hash, raw, configHash);
            && (b.bound <==> Absolute(raw.command))
            && (b.bound ==> b.resolvedCommand != "" && CleanText(b.resolvedCommand) == CleanText(raw.command) &&
                            b.resolvedCommand == Render(CleanText(raw.command)))
            && (!b.bound ==> b.resolvedCommand == "" && b.commandPathHash == "")
            && Prints(hash, raw.args, b.argumentFingerprints)
  {
    CleanAgain(raw.command);
    RenderAbsolute(raw.command);
  }

  /**
    Two bindings are equivalent exactly if they come from one document, under one ID, with the
    same arguments and cleaned commands that are the same, or both without an absolute command.
   */
  lemma {:induction false} EquivalentExactly(hash: Hash, a: RawBinding, c: string, b: RawBinding, d: string)
    ensures Equivalent(NewBinding(hash, a, c), NewBinding(hash, b, d)) <==>
              && a.hostId + "." + a.serverName == b.hostId + "." + b.serverName && c == d && a.args == b.args
              && (Absolute(a.command) <==> Absolute(b.command))
              && (Absolute(a.command) ==> CleanText(a.command) == CleanText(b.command))
  {
    BoundExactly(hash, a, c);
    BoundExactly(hash, b, d);
    RenderInjective(a.command, b.command);
  }

  /** A configured server's binding is attributed to its host, under host and server name, and shows its program. */
  lemma {:induction false} ServerAttributed(hash: Hash, d: Dialect, name: string, value: Value, configHash: string)
    requires Project(d, name, value).Good?
    ensures var raw := Project(d, name, value).raw; var b := NewBinding(hash, raw, configHash);
            && AttributionOf(b) == Attribution(d.host, d.host + "." + name, configHash, Absolute(raw.command))
            && b.serverName == name && (b.commandPathHash != "" ==>
                 b.commandPathHash == hash("arp:host-command-path:v1", b.resolvedCommand))
            && BaseName(if b.bound then b.resolvedCommand else raw.command, b.commandBasename)
  {
    hide Project, BaseName, Base, CleanText, Render, DirectCommand, SafeIdentifier;
    var raw := Project(d, name, value).raw;
    BaseExactly(NewBinding(hash, raw, configHash).resolvedCommand);
    CleanAgain(raw.command);
    BaseExactly(raw.command);
  }
}
