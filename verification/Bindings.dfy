/** Host bindings: `newBinding`, `Match` and the merge in `Discover` (internal/hostprofile). */
module Bindings {
  import opened Basics
  import opened CleanPaths
  import opened LexOrder
  import opened Observations

  datatype RawBinding = RawBinding(hostId: string, serverName: string, command: string, args: seq<string>)

  datatype Binding = Binding(id: string, hostId: string, serverName: string, commandBasename: string,
                             commandPathHash: string, argumentFingerprints: seq<Fingerprint>,
                             configSourceHash: string, bound: bool, resolvedCommand: string,
                             arguments: seq<string>)

  /** `hashValue` of a domain and a value. */
  type Hash = (string, string) -> string

  /** An absolute command is cleaned and bound; any other is only a hint. */
  function NewBinding(hash: Hash, raw: RawBinding, configHash: string): Binding {
    var bound := Absolute(raw.command);
    var command := if bound then Render(CleanText(raw.command)) else raw.command;
    Binding(raw.hostId + "." + raw.serverName, raw.hostId, raw.serverName, Base(command),
            if bound then hash("arp:host-command-path:v1", Render(CleanText(command))) else "",
            FingerprintsOf(hash, raw.args), configHash, bound, if bound then command else "", raw.args)
  }

  function FingerprintsOf(hash: Hash, args: seq<string>): (r: seq<Fingerprint>)
    ensures |r| == |args|
  {
    seq(|args|, i requires 0 <= i < |args| => Fingerprint(i + 1, hash("arp:host-argument:v1", args[i])))
  }

  // ----- Equivalence -------------------------------------------------------------------------

  /** `equivalentBinding`. */
  predicate Equivalent(a: Binding, b: Binding) {
    a.id == b.id && a.configSourceHash == b.configSourceHash && a.resolvedCommand == b.resolvedCommand &&
    a.arguments == b.arguments
  }

  /** Made for one host, and equivalent: then only the basename of a mere hint can differ. */
  lemma {:induction false} EquivalentMeansEqual(hash: Hash, a: RawBinding, c: string, b: RawBinding, d: string)
    requires a.hostId == b.hostId && Equivalent(NewBinding(hash, a, c), NewBinding(hash, b, d))
    ensures var x, y := NewBinding(hash, a, c), NewBinding(hash, b, d);
            x.bound == y.bound && (x == y <==> x.commandBasename == y.commandBasename) && (x.bound ==> x == y)
  {
    var x, y := NewBinding(hash, a, c), NewBinding(hash, b, d);
    var head := a.hostId + ".";
    assert x.id[|head|..] == a.serverName && y.id[|head|..] == b.serverName;
    RenderAbsolute(a.command);
    RenderAbsolute(b.command);
  }

  lemma {:induction false} RenderAbsolute(command: string)
    ensures Absolute(command) ==> Render(CleanText(command)) != ""
  {
  }

  /** All bindings that share an ID are pairwise equivalent. */
  ghost predicate Mergeable(all: seq<Binding>) {
    forall x, y | x in all && y in all && x.id == y.id :: Equivalent(x, y)
  }

  ghost predicate FirstAt(all: seq<Binding>, i: nat, b: Binding) {
    i < |all| && all[i] == b && forall j | 0 <= j < i :: all[j].id != b.id
  }

  /** The first binding with its ID. */
  ghost predicate FirstOf(all: seq<Binding>, b: Binding) {
    exists i :: FirstAt(all, i, b)
  }

  ghost predicate HasId(all: seq<Binding>, id: string) {
    exists b :: b in all && b.id == id
  }

  /** Sorted by ID, without duplicates, and for each ID the first binding that had it. */
  ghost predicate Merged(all: seq<Binding>, result: seq<Binding>) {
    SortedBy(result, (b: Binding) => Codes(b.id)) && forall b :: b in result <==> FirstOf(all, b)
  }

  lemma FirstAtConcat(a: seq<Binding>, b: seq<Binding>, i: nat, x: Binding)
    ensures i < |a| ==> (FirstAt(a + b, i, x) <==> FirstAt(a, i, x))
    ensures i >= |a| ==> (FirstAt(a + b, i, x) <==> !HasId(a, x.id) && FirstAt(b, i - |a|, x))
  {
    var all := a + b;
    if i < |a| {
      assert forall j | 0 <= j <= i :: all[j] == a[j];
    } else {
      assert forall j | 0 <= j < |a| :: all[j] == a[j];
      assert forall j | 0 <= j < |b| :: b[j] == all[|a| + j];
      if HasId(a, x.id) {
        var y: Binding :| y in a && y.id == x.id;
        var k :| 0 <= k < |a| && a[k] == y;
        assert all[k].id == x.id;
      } else if FirstAt(b, i - |a|, x) {
        assert forall j | 0 <= j < |a| :: a[j] in a;
        assert forall j | |a| <= j < i :: all[j] == b[j - |a|];
      }
    }
  }

  lemma {:induction false} FirstOfConcat(a: seq<Binding>, b: seq<Binding>, x: Binding)
    ensures FirstOf(a + b, x) <==> FirstOf(a, x) || (!HasId(a, x.id) && FirstOf(b, x))
  {
    if i: nat :| FirstAt(a + b, i, x) {
      FirstAtConcat(a, b, i, x);
    }
    if i: nat :| FirstAt(a, i, x) {
      FirstAtConcat(a, b, i, x);
    }
    if i: nat :| FirstAt(b, i, x) {
      FirstAtConcat(a, b, |a| + i, x);
    }
  }

  lemma {:induction false} FirstExists(all: seq<Binding>, id: string)
    requires HasId(all, id)
    ensures exists b: Binding :: b.id == id && FirstOf(all, b)
  {
    var n := |all| - 1;
    assert all == all[..n] + [all[n]];
    if HasId(all[..n], id) {
      FirstExists(all[..n], id);
      var b: Binding :| b.id == id && FirstOf(all[..n], b);
      FirstOfConcat(all[..n], [all[n]], b);
    } else {
      var b :| b in all && b.id == id;
      assert b == all[n];
      assert FirstAt([b], 0, b);
      FirstOfConcat(all[..n], [b], b);
    }
  }

  lemma FirstIsUnique(all: seq<Binding>, x: Binding, y: Binding)
    requires FirstOf(all, x) && FirstOf(all, y) && x.id == y.id
    ensures x == y && x in all
  {
  }

  /** Comparing each binding with the first of its ID is comparing all pairs. */
  lemma {:induction false} ComparingWithFirst(all: seq<Binding>, b: Binding)
    requires Mergeable(all)
    ensures Mergeable(all + [b]) <==>
              forall first: Binding | FirstOf(all, first) && first.id == b.id :: Equivalent(first, b)
  {
    forall first: Binding | FirstOf(all, first) && first.id == b.id && Mergeable(all + [b])
      ensures Equivalent(first, b)
    {
      assert first in all + [b] && b in all + [b];
    }
    if forall first: Binding | FirstOf(all, first) && first.id == b.id :: Equivalent(first, b) {
      forall x | x in all && x.id == b.id ensures Equivalent(x, b) {
        FirstExists(all, b.id);
        var first: Binding :| first.id == b.id && FirstOf(all, first);
        FirstIsUnique(all, first, first);
        assert Equivalent(x, first);
      }
    }
  }

  // ----- When the order matters ------------------------------------------------------------

  ghost predicate SameMembers(a: seq<Binding>, b: seq<Binding>) {
    forall x :: x in a <==> x in b
  }

  ghost predicate Rearranged(other: seq<Binding>, all: seq<Binding>) {
    multiset(other) == multiset(all)
  }

  /** Both are refused, or both are merged to the same bindings. */
  ghost predicate SameOutcome(a: seq<Binding>, b: seq<Binding>) {
    (Mergeable(a) <==> Mergeable(b)) && (Mergeable(a) ==> forall x :: FirstOf(a, x) <==> FirstOf(b, x))
  }

  /** Every arrangement of these bindings has the same outcome. */
  ghost predicate OrderFree(all: seq<Binding>) {
    forall other | Rearranged(other, all) :: SameOutcome(other, all)
  }

  ghost predicate UniqueIds(all: seq<Binding>) {
    forall x, y | x in all && y in all && x.id == y.id :: x == y
  }

  lemma {:induction false} UniqueFirst(all: seq<Binding>, b: Binding)
    requires UniqueIds(all)
    ensures FirstOf(all, b) <==> b in all
  {
    if b in all {
      FirstExists(all, b.id);
      var first: Binding :| first.id == b.id && FirstOf(all, first);
      FirstIsUnique(all, first, first);
    }
  }

  lemma RearrangedMembers(other: seq<Binding>, all: seq<Binding>)
    requires Rearranged(other, all)
    ensures SameMembers(other, all) && (Mergeable(other) <==> Mergeable(all)) && (UniqueIds(other) <==> UniqueIds(all))
  {
    forall x ensures x in other <==> x in all {
      assert x in multiset(other) <==> x in multiset(all);
    }
  }

  /**
    The order is irrelevant exactly when the bindings are refused anyway, or an ID names
    one binding; merely equivalent ones are not enough.
   */
  lemma {:induction false} OrderFreeExactly(all: seq<Binding>)
    ensures OrderFree(all) <==> (Mergeable(all) ==> UniqueIds(all))
  {
    hide FirstOf, Mergeable, Rearranged;
    if Mergeable(all) ==> UniqueIds(all) {
      forall other | Rearranged(other, all) ensures SameOutcome(other, all) {
        RearrangedMembers(other, all);
        if Mergeable(all) {
          forall x ensures FirstOf(other, x) <==> FirstOf(all, x) {
            UniqueFirst(all, x);
            UniqueFirst(other, x);
          }
        }
      }
    }
    if OrderFree(all) && Mergeable(all) {
      forall x, y | x in all && y in all && x.id == y.id ensures x == y {
        PutFirst(all, x);
        PutFirst(all, y);
        FirstIsUnique(all, x, y);
      }
    }
  }

  lemma PutFirst(all: seq<Binding>, x: Binding)
    requires OrderFree(all) && Mergeable(all) && x in all
    ensures FirstOf(all, x)
  {
    hide Mergeable;
    var i :| 0 <= i < |all| && all[i] == x;
    var other := [x] + (all[..i] + all[i + 1..]);
    assert all == all[..i] + [x] + all[i + 1..];
    assert Rearranged(other, all);
    RearrangedMembers(other, all);
    assert FirstAt(other, 0, x);
  }

  lemma {:induction false} PairDependsOnOrder(a: Binding, b: Binding)
    requires Equivalent(a, b) && a != b
    ensures Mergeable([a, b]) && Mergeable([b, a]) && !OrderFree([a, b])
  {
    OrderFreeExactly([a, b]);
    assert a in [a, b] && b in [a, b];
  }

  /** Refused in every order. */
  lemma {:induction false} RefusedInAnyOrder(all: seq<Binding>)
    requires !Mergeable(all)
    ensures OrderFree(all)
  {
    OrderFreeExactly(all);
  }

  /** Two hints from one document that differ only in the command are equivalent, and the first one wins. */
  lemma {:induction false} HintsDependOnOrder(hash: Hash)
    ensures var a := NewBinding(hash, RawBinding("h", "s", "node", []), "c");
            var b := NewBinding(hash, RawBinding("h", "s", "python", []), "c");
            Mergeable([a, b]) && Mergeable([b, a]) && !OrderFree([a, b])
  {
    PlainBase("node");
    PlainBase("python");
    assert "node" != "python";
    PairDependsOnOrder(NewBinding(hash, RawBinding("h", "s", "node", []), "c"),
                       NewBinding(hash, RawBinding("h", "s", "python", []), "c"));
  }

  /** The documents in turn. */
  function Flatten(documents: seq<seq<Binding>>): seq<Binding> {
    if documents == [] then [] else Flatten(documents[..|documents| - 1]) + documents[|documents| - 1]
  }

  /** Document by document the same bindings, in any order; within a document no ID is used twice. */
  ghost predicate Reordered(documents: seq<seq<Binding>>, others: seq<seq<Binding>>) {
    && |documents| == |others|
    && forall i | 0 <= i < |documents| :: UniqueIds(documents[i]) && SameMembers(documents[i], others[i])
  }

  lemma {:induction false} ReorderedFirst(documents: seq<seq<Binding>>, others: seq<seq<Binding>>, b: Binding)
    requires Reordered(documents, others)
    ensures FirstOf(Flatten(documents), b) <==> FirstOf(Flatten(others), b)
    ensures b in Flatten(documents) <==> b in Flatten(others)
    ensures HasId(Flatten(documents), b.id) <==> HasId(Flatten(others), b.id)
  {
    if documents != [] {
      var n := |documents| - 1;
      ReorderedFirst(documents[..n], others[..n], b);
      FirstOfConcat(Flatten(documents[..n]), documents[n], b);
      FirstOfConcat(Flatten(others[..n]), others[n], b);
      UniqueFirst(documents[n], b);
      UniqueFirst(others[n], b);
      HasIdConcat(Flatten(documents[..n]), documents[n], b.id);
      HasIdConcat(Flatten(others[..n]), others[n], b.id);
      assert HasId(documents[n], b.id) <==> HasId(others[n], b.id);
    }
  }

  lemma HasIdConcat(a: seq<Binding>, b: seq<Binding>, id: string)
    ensures HasId(a + b, id) <==> HasId(a, id) || HasId(b, id)
  {
    forall x: Binding | x in a || x in b ensures x in a + b {
    }
  }

  /**
    In whatever order the parser's maps hand out their servers, the merge succeeds or
    fails alike, and its result is the same.
   */
  lemma {:induction false} MergeIsOrderFree(documents: seq<seq<Binding>>, others: seq<seq<Binding>>, r: seq<Binding>,
                                            s: seq<Binding>)
    requires Reordered(documents, others)
    ensures Mergeable(Flatten(documents)) <==> Mergeable(Flatten(others))
    ensures Merged(Flatten(documents), r) && Merged(Flatten(others), s) ==> r == s
  {
    forall b: Binding
      ensures (FirstOf(Flatten(documents), b) <==> FirstOf(Flatten(others), b)) &&
              (b in Flatten(documents) <==> b in Flatten(others))
    {
      ReorderedFirst(documents, others, b);
    }
    if Merged(Flatten(documents), r) && Merged(Flatten(others), s) {
      SortedUnique(r, s, (b: Binding) => Codes(b.id));
    }
  }

  // ----- The merge ------------------------------------------------------------------------------

  /** What reading and parsing one configuration source gave. */
  datatype Source = Missing | Unreadable | Unparsable | Parsed(configHash: string, raws: seq<RawBinding>)

  predicate Usable(source: Source, explicitPath: bool) {
    source.Parsed? || (source.Missing? && !explicitPath)
  }

  function BindingsOf(hash: Hash, source: Source): seq<Binding> {
    if source.Parsed? then
      seq(|source.raws|, i requires 0 <= i < |source.raws| => NewBinding(hash, source.raws[i], source.configHash))
    else []
  }

  function AllBindings(hash: Hash, sources: seq<Source>): seq<Binding> {
    if sources == [] then []
    else AllBindings(hash, sources[..|sources| - 1]) + BindingsOf(hash, sources[|sources| - 1])
  }

  /** What the map holds after the bindings seen so far. */
  ghost predicate Holds(seen: seq<Binding>, bindings: map<string, Binding>) {
    && Mergeable(seen)
    && (forall id :: id in bindings <==> HasId(seen, id))
    && (forall id | id in bindings :: bindings[id].id == id && FirstOf(seen, bindings[id]))
  }

  lemma {:induction false} HoldsNext(seen: seq<Binding>, bindings: map<string, Binding>, b: Binding)
    requires Holds(seen, bindings)
    ensures b.id in bindings && !Equivalent(bindings[b.id], b) ==> !Mergeable(seen + [b])
    ensures b.id in bindings && Equivalent(bindings[b.id], b) ==> Holds(seen + [b], bindings)
    ensures b.id !in bindings ==> Holds(seen + [b], bindings[b.id := b])
  {
    ComparingWithFirst(seen, b);
    forall first: Binding | FirstOf(seen, first) ensures HasId(seen, first.id) {
      FirstIsUnique(seen, first, first);
    }
    if b.id in bindings {
      forall first: Binding | FirstOf(seen, first) && first.id == b.id ensures first == bindings[b.id] {
        FirstIsUnique(seen, first, bindings[b.id]);
      }
    }
    assert [b][0] == b && FirstAt([b], 0, b);
    forall id {
      HasIdConcat(seen, [b], id);
    }
    forall x {
      FirstOfConcat(seen, [b], x);
    }
  }

  lemma HoldsNothing(hash: Hash, sources: seq<Source>)
    ensures Holds(AllBindings(hash, sources[..0]), map[])
  {
  }

  lemma HoldsById(seen: seq<Binding>, bindings: map<string, Binding>)
    requires Holds(seen, bindings)
    ensures forall id | id in bindings :: bindings[id].id == id
  {
  }

  /** One source's bindings, into the map. */
  method Merge(hash: Hash, source: Source, bindings: map<string, Binding>, ghost seen: seq<Binding>)
    returns (r: Option<map<string, Binding>>)
    requires source.Parsed? && Holds(seen, bindings)
    ensures r.Some? ==> Holds(seen + BindingsOf(hash, source), r.value)
    ensures r.None? ==> !Mergeable(seen + BindingsOf(hash, source))
  {
    hide Holds, Mergeable, NewBinding, BindingsOf;
    var merged := bindings;
    ghost var all := BindingsOf(hash, source);
    BindingsAre(hash, source);
    assert seen + all[..0] == seen;
    for i := 0 to |source.raws|
      invariant Holds(seen + all[..i], merged)
    {
      var binding := NewBinding(hash, source.raws[i], source.configHash);
      HoldsNext(seen + all[..i], merged, binding);
      assert seen + all[..i + 1] == seen + all[..i] + [binding];
      if binding.id in merged {
        if !Equivalent(merged[binding.id], binding) {
          StaysUnmergeable(seen, all, i + 1);
          return None;
        }
      } else {
        merged := merged[binding.id := binding];
      }
    }
    assert all[..|source.raws|] == all;
    r := Some(merged);
  }

  lemma BindingsAre(hash: Hash, source: Source)
    requires source.Parsed?
    ensures |BindingsOf(hash, source)| == |source.raws|
    ensures forall i | 0 <= i < |source.raws| ::
              BindingsOf(hash, source)[i] == NewBinding(hash, source.raws[i], source.configHash)
  {
  }

  lemma StaysUnmergeable(seen: seq<Binding>, all: seq<Binding>, n: nat)
    requires n <= |all| && !Mergeable(seen + all[..n])
    ensures !Mergeable(seen + all)
  {
    assert forall x | x in seen + all[..n] :: x in seen + all;
  }

  /** This document is the reason to stop, with this code. */
  ghost predicate Stops(hash: Hash, sources: seq<Source>, explicitPath: bool, n: nat, code: HostCode) {
    n < |sources| &&
    match sources[n]
    case Missing => explicitPath && code == HostConfigInaccessible
    case Unreadable => code == HostConfigInaccessible
    case Unparsable => code == HostConfigInvalid
    case Parsed(_, _) => code == HostBindingAmbiguous && !Mergeable(AllBindings(hash, sources[..n + 1]))
  }

  /** And nothing before it was. */
  ghost predicate FirstStops(hash: Hash, sources: seq<Source>, explicitPath: bool, n: nat, code: HostCode) {
    Stops(hash, sources, explicitPath, n, code) && forall i, c | 0 <= i < n :: !Stops(hash, sources, explicitPath, i, c)
  }

  lemma HoldsMerged(seen: seq<Binding>, bindings: map<string, Binding>)
    requires Holds(seen, bindings)
    ensures Mergeable(seen)
  {
  }

  /** One input of `Discover`. */
  method Absorb(hash: Hash, sources: seq<Source>, n: nat, explicitPath: bool, bindings: map<string, Binding>)
    returns (r: Result<map<string, Binding>, HostCode>)
    requires n < |sources| && Holds(AllBindings(hash, sources[..n]), bindings)
    ensures r.Ok? ==> Usable(sources[n], explicitPath) && Holds(AllBindings(hash, sources[..n + 1]), r.value)
    ensures r.Ok? ==> forall c :: !Stops(hash, sources, explicitPath, n, c)
    ensures r.Err? ==> Stops(hash, sources, explicitPath, n, r.error)
    ensures r.Err? ==> !Usable(sources[n], explicitPath) || !Mergeable(AllBindings(hash, sources))
    ensures r == Err(HostBindingAmbiguous) ==> !Mergeable(AllBindings(hash, sources))
    ensures r != Err(HostDiscoveryCancelled)
  {
    hide Holds, Mergeable;
    assert sources[..n + 1][..n] == sources[..n];
    match sources[n] {
      case Missing =>
        assert AllBindings(hash, sources[..n + 1]) == AllBindings(hash, sources[..n]);
        r := if explicitPath then Err(HostConfigInaccessible) else Ok(bindings);
      case Unreadable =>
        r := Err(HostConfigInaccessible);
      case Unparsable =>
        r := Err(HostConfigInvalid);
      case Parsed(_, _) =>
        var merged := Merge(hash, sources[n], bindings, AllBindings(hash, sources[..n]));
        if merged.None? {
          if Mergeable(AllBindings(hash, sources)) {
            PartIsMergeable(hash, sources, n + 1);
          }
          r := Err(HostBindingAmbiguous);
        } else {
          HoldsMerged(AllBindings(hash, sources[..n + 1]), merged.value);
          r := Ok(merged.value);
        }
    }
  }

  /**
    `Discover` from the inputs on.  With usable sources and no cancellation it succeeds
    exactly when all bindings that share an ID are equivalent, and then returns them
    sorted, without duplicates, each as it was first seen.
   */
  method Discover(hash: Hash, sources: seq<Source>, explicitPath: bool) returns (r: Result<seq<Binding>, HostCode>)
    ensures r.Ok? ==> (forall s | s in sources :: Usable(s, explicitPath)) &&
                      Mergeable(AllBindings(hash, sources)) && Merged(AllBindings(hash, sources), r.value)
    ensures r.Err? && r.error != HostDiscoveryCancelled ==>
              (exists s | s in sources :: !Usable(s, explicitPath)) || !Mergeable(AllBindings(hash, sources))
    ensures r == Err(HostBindingAmbiguous) ==> !Mergeable(AllBindings(hash, sources))
    ensures r.Err? && r.error != HostDiscoveryCancelled ==>
              exists n :: FirstStops(hash, sources, explicitPath, n, r.error)
  {
    hide Holds, Mergeable, Merged, AllBindings, Stops;
    var bindings: map<string, Binding> := map[];
    HoldsNothing(hash, sources);
    for n := 0 to |sources|
      invariant forall s | s in sources[..n] :: Usable(s, explicitPath)
      invariant Holds(AllBindings(hash, sources[..n]), bindings)
      invariant forall i, c | 0 <= i < n :: !Stops(hash, sources, explicitPath, i, c)
    {
      if * {
        return Err(HostDiscoveryCancelled);
      }
      var absorbed := Absorb(hash, sources, n, explicitPath, bindings);
      assert sources[..n + 1] == sources[..n] + [sources[n]] && sources[n] in sources;
      if absorbed.Err? {
        assert FirstStops(hash, sources, explicitPath, n, absorbed.error);
        return Err(absorbed.error);
      }
      bindings := absorbed.value;
    }
    assert sources[..|sources|] == sources;
    HoldsById(AllBindings(hash, sources), bindings);
    var result := ListMap(bindings);
    ghost var listed := result;
    IdsApart(result);
    result := SortBy(result, (b: Binding) => Codes(b.id));
    SameMembersOf(result, listed);
    AllListed(AllBindings(hash, sources), bindings, result);
    r := Ok(result);
  }

  lemma {:induction false} PartIsMergeable(hash: Hash, sources: seq<Source>, n: nat)
    requires n <= |sources| && Mergeable(AllBindings(hash, sources))
    ensures Mergeable(AllBindings(hash, sources[..n]))
    decreases |sources| - n
  {
    if n == |sources| {
      assert sources[..n] == sources;
    } else {
      PartIsMergeable(hash, sources, n + 1);
      assert sources[..n + 1][..n] == sources[..n];
      assert forall x | x in AllBindings(hash, sources[..n]) :: x in AllBindings(hash, sources[..n + 1]);
    }
  }

  /** The map's values in some order. */
  method ListMap(bindings: map<string, Binding>) returns (r: seq<Binding>)
    requires forall id | id in bindings :: bindings[id].id == id
    ensures forall b :: b in r <==> b.id in bindings && bindings[b.id] == b
    ensures forall i, j | 0 <= i < j < |r| :: r[i].id != r[j].id
  {
    r := [];
    var rest := bindings.Keys;
    while rest != {}
      invariant rest <= bindings.Keys
      invariant forall b :: b in r <==> b.id in bindings.Keys - rest && bindings[b.id] == b
      invariant forall i, j | 0 <= i < j < |r| :: r[i].id != r[j].id
    {
      var id :| id in rest;
      assert forall i | 0 <= i < |r| :: r[i] in r;
      rest, r := rest - {id}, r + [bindings[id]];
    }
  }

  lemma IdsApart(bindings: seq<Binding>)
    requires forall i, j | 0 <= i < j < |bindings| :: bindings[i].id != bindings[j].id
    ensures DistinctBy(bindings, (b: Binding) => Codes(b.id))
  {
    forall i, j | 0 <= i < j < |bindings| ensures Codes(bindings[i].id) != Codes(bindings[j].id) {
      if Codes(bindings[i].id) == Codes(bindings[j].id) {
        CodesInjective(bindings[i].id, bindings[j].id);
      }
    }
  }

  lemma {:induction false} AllListed(all: seq<Binding>, bindings: map<string, Binding>, result: seq<Binding>)
    requires Holds(all, bindings) && SortedBy(result, (b: Binding) => Codes(b.id))
    requires forall b :: b in result <==> b.id in bindings && bindings[b.id] == b
    ensures Merged(all, result) && Mergeable(all)
  {
    forall b ensures b in result <==> FirstOf(all, b) {
      if FirstOf(all, b) {
        FirstIsUnique(all, b, b);
        assert HasId(all, b.id);
        FirstIsUnique(all, b, bindings[b.id]);
      }
    }
  }

  // ----- Matching -----------------------------------------------------------------------------

  /** `sameCommandPath` and `sameArgumentFingerprints`. */
  predicate Hit(binding: Binding, candidate: Candidate) {
    var path := if candidate.declaredPath == "" then candidate.executablePath else candidate.declaredPath;
    Render(CleanText(path)) == Render(CleanText(binding.resolvedCommand)) &&
      candidate.arguments == binding.argumentFingerprints
  }

  ghost predicate OnlyHit(binding: Binding, candidates: seq<Candidate>, i: nat) {
    i < |candidates| && Hit(binding, candidates[i]) &&
      forall j | 0 <= j < |candidates| && j != i :: !Hit(binding, candidates[j])
  }

  ghost predicate TwoHits(binding: Binding, candidates: seq<Candidate>) {
    exists i, j :: 0 <= i < j < |candidates| && Hit(binding, candidates[i]) && Hit(binding, candidates[j])
  }

  /** A bound binding gets the one candidate that fits it; none is not running, several are ambiguous. */
  ghost predicate Chosen(binding: Binding, candidates: seq<Candidate>, r: Result<Candidate, HostCode>) {
    if !binding.bound || binding.resolvedCommand == "" then r == Err(HostProcessNotRunning)
    else if TwoHits(binding, candidates) then r == Err(HostProcessAmbiguous)
    else if r.Ok? then exists i: nat :: OnlyHit(binding, candidates, i) && candidates[i] == r.value
    else r == Err(HostProcessNotRunning) && forall j | 0 <= j < |candidates| :: !Hit(binding, candidates[j])
  }

  /** `Binding.Match`. */
  method Match(binding: Binding, candidates: seq<Candidate>) returns (r: Result<Candidate, HostCode>)
    ensures Chosen(binding, candidates, r)
  {
    hide Hit, HitsAt, OnlyHit, TwoHits;
    if !binding.bound || binding.resolvedCommand == "" {
      return Err(HostProcessNotRunning);
    }
    var matches: seq<Candidate> := [];
    ghost var places: seq<nat> := [];
    HitsNone(binding, candidates);
    for i := 0 to |candidates|
      invariant HitsAt(binding, candidates, i, places)
      invariant |places| == |matches| && (|places| == 1 ==> places[0] < i && matches[0] == candidates[places[0]])
    {
      HitsNext(binding, candidates, i, places);
      if Hit(binding, candidates[i]) {
        matches, places := matches + [candidates[i]], places + [i];
      }
    }
    if |matches| == 0 {
      r := Err(HostProcessNotRunning);
    } else if |matches| == 1 {
      r := Ok(matches[0]);
    } else {
      r := Err(HostProcessAmbiguous);
    }
    HitsDecide(binding, candidates, places, r);
  }

  /** The places below n where the binding fits, in order. */
  ghost predicate HitsAt(binding: Binding, candidates: seq<Candidate>, n: nat, places: seq<nat>)
    requires n <= |candidates|
  {
    && (forall k | 0 <= k < |places| :: places[k] < n && Hit(binding, candidates[places[k]]))
    && (forall k, l | 0 <= k < l < |places| :: places[k] < places[l])
    && (forall j: nat | j < n && Hit(binding, candidates[j]) :: j in places)
  }

  lemma HitsNone(binding: Binding, candidates: seq<Candidate>)
    ensures HitsAt(binding, candidates, 0, [])
  {
  }

  lemma HitsNext(binding: Binding, candidates: seq<Candidate>, i: nat, places: seq<nat>)
    requires i < |candidates| && HitsAt(binding, candidates, i, places)
    ensures HitsAt(binding, candidates, i + 1, if Hit(binding, candidates[i]) then places + [i] else places)
  {
    hide Hit;
    var after := if Hit(binding, candidates[i]) then places + [i] else places;
    forall j: nat | j < i + 1 && Hit(binding, candidates[j]) ensures j in after {
      if j == i {
        assert after[|places|] == i;
      }
    }
  }

  lemma {:induction false} HitsDecide(binding: Binding, candidates: seq<Candidate>, places: seq<nat>,
                                      r: Result<Candidate, HostCode>)
    requires binding.bound && binding.resolvedCommand != "" && HitsAt(binding, candidates, |candidates|, places)
    requires |places| == 0 ==> r == Err(HostProcessNotRunning)
    requires |places| == 1 ==> places[0] < |candidates| && r == Ok(candidates[places[0]])
    requires |places| > 1 ==> r == Err(HostProcessAmbiguous)
    ensures Chosen(binding, candidates, r)
  {
    if |places| > 1 {
      assert places[0] < places[1] && Hit(binding, candidates[places[0]]) && Hit(binding, candidates[places[1]]);
    } else if |places| == 1 {
      assert OnlyHit(binding, candidates, places[0]);
    }
  }
}
