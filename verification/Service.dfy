/** The order of observations in internal/app/service.go, and what a verdict is worth. */
module Service {
  import opened ArtifactDigest
  import opened ArtifactIdentity
  import opened Basics
  import opened Bindings
  import opened CleanPaths
  import opened Decisions
  import opened Evaluator
  import opened Expectations
  import opened HostAttribution
  import opened Kernel
  import opened Observations
  import opened ProcessObserver
  import opened ProofSemantics
  import opened Selection
  import TreeAcceptance
  import opened TreeSpec

  const DEFAULT_INVENTORY_LIMIT := 256
  const MAXIMUM_INVENTORY_LIMIT := 4096

  /** The parts of a proof this model follows. */
  datatype Proof = Proof(decision: Decision, process: Option<ProcessIdentity>, artifact: Option<ArtifactObservation>,
                         host: Option<Attribution>)

  datatype ServiceError = InvalidInput | Cancelled | ObserverFailed | BuildFailed

  /**
    `proof.Build`: nothing is issued that the validator would refuse, nor the schema for a
    repeated code or for the identifiers of the attribution.
   */
  method Build(input: Input, decision: Decision, host: Option<Attribution>) returns (r: Result<Proof, ServiceError>)
    requires decision == Evaluate(input)
    ensures r.Ok? <==> Presentable(input) && NoRepeats(decision.reasons) && NoRepeats(decision.limitations) &&
                       HostFits(host)
    ensures r.Err? ==> r.error == BuildFailed
    ensures r.Ok? ==> r.value.decision == decision && r.value.artifact == input.artifact && r.value.host == host
    ensures r.Ok? ==> r.value.process == (if input.candidate.Some? then Some(input.candidate.value.process) else None)
  {
    EvaluatorAgreesExactly(input);
    var ok := ValidateProofSemantics(ClaimsOf(input));
    if !ok || !NoRepeats(decision.reasons) || !NoRepeats(decision.limitations) || !HostFits(host) {
      return Err(BuildFailed);
    }
    var process := if input.candidate.Some? then Some(input.candidate.value.process) else None;
    r := Ok(Proof(decision, process, input.artifact, host));
  }

  /** Which host binding a proof is attributed to: the one the resolver found, whatever became of its process. */
  function AttributedTo(hasProfiles: bool, binding: Option<Result<Binding, HostCode>>): Option<Attribution> {
    if hasProfiles && binding.Some? && binding.value.Ok? && binding.value.value.id != "" then
      Some(AttributionOf(binding.value.value))
    else None
  }

  /** A proof is attributed exactly if profiles are configured and the host's binding was found: to that host and ID. */
  lemma AttributedExactly(hasProfiles: bool, binding: Option<Result<Binding, HostCode>>, a: Attribution)
    ensures AttributedTo(hasProfiles, binding) == Some(a) <==>
              exists b: Binding :: hasProfiles && binding == Some(Ok(b)) && b.id != "" &&
                                   a.hostId == b.hostId && a.bindingId == b.id &&
                                   a.configSourceHash == b.configSourceHash && a.bound == b.bound
  {
  }

  /** `hostErrorOnly`. */
  function HostErrorOnly(bound: bool, error: Option<Failure>): Option<Failure> {
    if bound && error.Some? && error.value.HostFailure? then error else None
  }

  function AsFound(matched: Result<Candidate, HostCode>): Result<Candidate, Failure> {
    if matched.Ok? then Ok(matched.value) else Err(HostFailure(matched.error))
  }

  function ResolverCode<T>(hasProfiles: bool, answer: Result<T, HostCode>): HostCode {
    if hasProfiles && answer.Err? then answer.error else HostCode.HostConfigInaccessible
  }

  /** What matching a binding against the candidates listed gave. */
  ghost predicate Matches(binding: Binding, candidates: seq<Candidate>, found: Result<Candidate, Failure>) {
    exists matched :: Chosen(binding, candidates, matched) && found == AsFound(matched)
  }

  /** What looking for a binding's process gave: no binding, no listing, or the match. */
  ghost predicate FoundFor(hasProfiles: bool, binding: Result<Binding, HostCode>, candidates: seq<Candidate>,
                           found: Result<Candidate, Failure>) {
    if !hasProfiles || binding.Err? then found == Err(HostFailure(ResolverCode(hasProfiles, binding)))
    else (found.Err? && found.error.ProcessFailure? && candidates == []) || Matches(binding.value, candidates, found)
  }

  /** The codes reported without an expectation for one failure. */
  function ReasonsFor(bound: bool, error: Failure): seq<Reason> {
    [ExpectationMissing] + HostReason(HostErrorOnly(bound, Some(error))) + ProcessReason(Some(error))
  }

  /**
    The proof names the candidate found, or nobody and why: the failure that was met, or
    that of looking a second time.
   */
  ghost predicate Reports(p: Proof, found: Result<Candidate, Failure>, bound: bool) {
    && p.decision.verdict == Unknown && p.artifact.None?
    && if p.process.Some? then
         found.Ok? && p.process.value == found.value.process && p.decision.reasons == [ExpectationMissing]
       else if found.Err? then p.decision.reasons == ReasonsFor(bound, found.error)
       else exists error: Failure :: error.ProcessFailure? && p.decision.reasons == ReasonsFor(bound, error)
  }

  /** The host's bindings, or the processes that fit the binding, are ambiguous. */
  ghost predicate Ambiguous(hasProfiles: bool, binding: Result<Binding, HostCode>, candidates: seq<Candidate>) {
    hasProfiles &&
    match binding
    case Err(code) => code == HostProcessAmbiguous || code == HostCode.HostBindingAmbiguous
    case Ok(b) => b.bound && b.resolvedCommand != "" && TwoHits(b, candidates)
  }

  /** No process listed fits the binding, or the host says so. */
  ghost predicate NobodyFits(hasProfiles: bool, binding: Result<Binding, HostCode>, candidates: seq<Candidate>) {
    hasProfiles &&
    match binding
    case Err(code) => code == HostProcessNotRunning
    case Ok(b) => !b.bound || b.resolvedCommand == "" || forall c | c in candidates :: !Hit(b, c)
  }

  lemma {:induction false} FoundExactly(hasProfiles: bool, binding: Result<Binding, HostCode>,
                                        candidates: seq<Candidate>, found: Result<Candidate, Failure>)
    requires FoundFor(hasProfiles, binding, candidates, found)
    ensures Ambiguous(hasProfiles, binding, candidates) <==>
              found in {Err(HostFailure(HostProcessAmbiguous)), Err(HostFailure(HostCode.HostBindingAmbiguous))}
    ensures found == Err(HostFailure(HostProcessNotRunning)) ==> NobodyFits(hasProfiles, binding, candidates)
    ensures NobodyFits(hasProfiles, binding, candidates) && found.Err? && !found.error.ProcessFailure? ==>
              found == Err(HostFailure(HostProcessNotRunning))
    ensures NobodyFits(hasProfiles, binding, candidates) ==> found.Err?
  {
    hide Hit;
    if hasProfiles && binding.Ok? && Matches(binding.value, candidates, found) {
      var matched :| Chosen(binding.value, candidates, matched) && found == AsFound(matched);
      forall c | c in candidates && (forall j | 0 <= j < |candidates| :: !Hit(binding.value, candidates[j]))
        ensures !Hit(binding.value, c)
      {
      }
    }
  }

  lemma FoundFails(hasProfiles: bool, binding: Result<Binding, HostCode>, candidates: seq<Candidate>,
                   found: Result<Candidate, Failure>)
    requires FoundFor(hasProfiles, binding, candidates, found)
    ensures found.Err? ==> found.error.HostFailure? || found.error.ProcessFailure?
  {
  }

  /** The process is the one asked for, by PID or as the only one that fits the binding. */
  ghost predicate Requested(id: ProcessIdentity, pid: int, hasProfiles: bool,
                            binding: Option<Result<Binding, HostCode>>, candidates: seq<Candidate>) {
    if binding.None? then id.pid == pid
    else exists c: Candidate :: c.process == id && FoundFor(hasProfiles, binding.value, candidates, Ok(c))
  }

  /** The proof for one binding of a host; undisturbed, it names a process exactly if one was matched. */
  ghost predicate ReportsBinding(p: Proof, binding: Binding, candidates: seq<Candidate>, undisturbed: bool) {
    p.host == Some(AttributionOf(binding)) &&
    exists found :: Matches(binding, candidates, found) && Reports(p, found, binding.id != "") &&
                    (undisturbed ==> (p.process.Some? <==> found.Ok?))
  }

  /** The instants and the inode behind a verdict. */
  datatype Evidence = Evidence(born: nat, loaded: nat, instant: nat, reborn: nat, reloaded: nat, root: Id)

  class Service {
    const w: World
    const naming: Naming
    const lib: Library
    /** The inode of "/". */
    const slash: Id
    /** Whether host profiles are configured. */
    const hasProfiles: bool

    constructor (w: World, naming: Naming, lib: Library, slash: Id, hasProfiles: bool)
      ensures this.w == w && this.naming == naming && this.lib == lib && this.slash == slash &&
              this.hasProfiles == hasProfiles
    {
      this.w, this.naming, this.lib, this.slash, this.hasProfiles := w, naming, lib, slash, hasProfiles;
    }

    /** Whoever a proof names was one process at every instant between two looks at it. */
    ghost predicate Vouched(p: Proof, first: nat, last: nat) {
      p.process.Some? ==> exists born: nat, reborn: nat ::
          first <= born <= reborn <= last && Throughout(p.process.value, born, reborn)
    }

    ghost predicate Throughout(id: ProcessIdentity, born: nat, reborn: nat) {
      id.bootIdHash == naming.boot && forall t: nat | born <= t <= reborn :: Born(w.processes, t, id.pid, id.createdAt)
    }

    /** A candidate seen and rechecked was one process from the first reading to the second. */
    lemma {:induction false} Lives(c: Candidate, first: nat, middle: nat, since: nat)
      returns (born: nat, loaded: nat, reborn: nat, reloaded: nat)
      requires LawfulProcesses(w.processes) && LawfulNaming(naming) && middle <= since
      requires Sighted(w.processes, naming, c, first, middle) && Rechecked(c, since)
      ensures first <= born <= loaded <= middle && since <= reborn <= reloaded <= w.now
      ensures LivedThrough(w.processes, c, born, loaded, reborn, reloaded) && Throughout(c.process, born, reborn)
    {
      hide LawfulProcesses, LawfulNaming, SameIdentity, Born;
      var actual :| Sighted(w.processes, naming, actual, since, w.now) && SameIdentity(c, actual);
      RevalidatedLives(w.processes, naming, c, actual, first, middle, since, w.now);
      born, loaded, reborn, reloaded :|
        first <= born <= loaded <= middle && since <= reborn <= reloaded <= w.now &&
        LivedThrough(w.processes, c, born, loaded, reborn, reloaded);
    }

    lemma {:induction false} Vouch(p: Proof, c: Candidate, first: nat, middle: nat, since: nat)
      requires LawfulProcesses(w.processes) && LawfulNaming(naming) && middle <= since
      requires p.process == Some(c.process) && Sighted(w.processes, naming, c, first, middle) && Rechecked(c, since)
      ensures Vouched(p, first, w.now)
    {
      hide LawfulProcesses, LawfulNaming, Sighted, Rechecked, Throughout, LivedThrough;
      var born, loaded, reborn, reloaded := Lives(c, first, middle, since);
    }

    lemma VouchedLater(proofs: seq<Proof>, first: nat, middle: nat, last: nat)
      requires middle <= last && forall p | p in proofs :: Vouched(p, first, middle)
      ensures forall p | p in proofs :: Vouched(p, first, last)
    {
      forall p | p in proofs ensures Vouched(p, first, last) {
        assert Vouched(p, first, middle);
      }
    }

    /** Evaluation and proof of one observation; it fails exactly if the schema refuses the attribution. */
    method Issue(input: Input, host: Option<Attribution>) returns (r: Result<Proof, ServiceError>)
      requires Presentable(input)
      requires !(input.expectation.None? && IsHost(input.hostError, HostProcessNotRunning) &&
                 input.processError == Some(ProcessFailure(NotFound)))
      ensures r.Ok? <==> HostFits(host)
      ensures r.Err? ==> r.error == BuildFailed
      ensures r.Ok? ==> r.value.decision == Evaluate(input) && r.value.artifact == input.artifact &&
                        r.value.host == host
      ensures r.Ok? ==> r.value.process == (if input.candidate.Some? then Some(input.candidate.value.process) else None)
    {
      var decision := Evaluate(input);
      RepeatsExactly(input);
      r := Build(input, decision, host);
    }

    /** A second snapshot since then had the same identity. */
    ghost predicate Rechecked(c: Candidate, since: nat)
      reads w`now
    {
      exists actual :: Sighted(w.processes, naming, actual, since, w.now) && SameIdentity(c, actual)
    }

    /** An observed process that does not revalidate is dropped, and the failure is kept instead. */
    method Recheck(found: Result<Candidate, Failure>) returns (candidate: Option<Candidate>, error: Option<Failure>)
      modifies w`now, w`faults
      ensures w.faults >= old(w.faults) && w.now >= old(w.now)
      ensures candidate.Some? <==> error.None?
      ensures found.Err? ==> error == Some(found.error)
      ensures found.Ok? && error.Some? ==> error.value.ProcessFailure?
      ensures found.Ok? && error.Some? && w.faults == old(w.faults) ==>
                Lost(w.processes, naming, found.value, old(w.now), w.now)
      ensures found.Ok? && error == Some(ProcessFailure(NotFound)) && found.value.process.pid > 0 ==>
                Absent(w.processes, found.value.process.pid, old(w.now), w.now)
      ensures candidate.Some? ==> found == Ok(candidate.value) && Rechecked(candidate.value, old(w.now))
    {
      if found.Err? {
        return None, Some(found.error);
      }
      error := Revalidate(w, naming, found.value);
      candidate := if error.None? then Some(found.value) else None;
    }

    /**
      Recheck, evaluation without an expectation, and proof: what each branch of `Inspect` does
      with one observation.
     */
    method Report(found: Result<Candidate, Failure>, bound: bool, host: Option<Attribution>, ghost first: nat)
      returns (r: Result<Proof, ServiceError>)
      requires LawfulProcesses(w.processes) && LawfulNaming(naming)
      requires found.Ok? ==> Sighted(w.processes, naming, found.value, first, w.now)
      modifies w`now, w`faults
      ensures w.faults >= old(w.faults) && w.now >= old(w.now)
      ensures r.Ok? <==> HostFits(host)
      ensures r.Err? ==> r.error == BuildFailed
      ensures r.Ok? ==> Vouched(r.value, first, w.now) && Reports(r.value, found, bound) && r.value.host == host
      ensures r.Ok? && w.faults == old(w.faults) && Still(w.processes, first, w.now) ==>
                (r.value.process.Some? <==> found.Ok?)
    {
      hide Sighted, Rechecked, Vouched, Lost, Still, HostFits, LawfulProcesses, LawfulNaming;
      ghost var middle := w.now;
      var candidate, error := Recheck(found);
      if found.Ok? && Still(w.processes, first, w.now) {
        NotLost(w.processes, naming, found.value, first, middle, middle, w.now);
      }
      r := Issue(Input(candidate, None, None, error, None, HostErrorOnly(bound, error), {}), host);
      if r.Err? {
        return;
      }
      if candidate.Some? {
        Vouch(r.value, candidate.value, first, middle, middle);
        assert r.value.decision.reasons == [ExpectationMissing];
      } else {
        NamesNobody(r.value, first);
        assert r.value.decision.reasons == ReasonsFor(bound, error.value);
      }
    }

    lemma NamesNobody(p: Proof, first: nat)
      requires p.process.None?
      ensures Vouched(p, first, w.now)
    {
    }

    /** `bindingCandidate`, given what the profile resolver answered. */
    method BindingCandidate(binding: Result<Binding, HostCode>)
      returns (r: Result<Candidate, Failure>, ghost candidates: seq<Candidate>)
      modifies w`now, w`faults
      ensures w.faults >= old(w.faults) && w.now >= old(w.now)
      ensures r.Ok? ==> Sighted(w.processes, naming, r.value, old(w.now), w.now)
      ensures FoundFor(hasProfiles, binding, candidates, r)
      ensures AllOwned(w.processes, naming, candidates, old(w.now), w.now)
      ensures w.faults == old(w.faults) && Still(w.processes, old(w.now), w.now) && hasProfiles && binding.Ok? ==>
                Matches(binding.value, candidates, r) &&
                EveryOwn(w.processes(old(w.now)), naming, candidates, MAXIMUM_INVENTORY_LIMIT)
    {
      hide Sighted, Still, Matches, EveryOwn, Owned;
      candidates := [];
      if !hasProfiles {
        return Err(HostFailure(HostCode.HostConfigInaccessible)), candidates;
      }
      if binding.Err? {
        return Err(HostFailure(binding.error)), candidates;
      }
      var listed, _, _ := List(w, naming, MAXIMUM_INVENTORY_LIMIT);
      if listed.Err? {
        return Err(listed.error), candidates;
      }
      candidates := listed.value;
      r := MatchOne(binding.value, listed.value);
    }

    method MatchOne(binding: Binding, candidates: seq<Candidate>) returns (r: Result<Candidate, Failure>)
      ensures Matches(binding, candidates, r) && (r.Ok? ==> r.value in candidates)
    {
      var matched := Match(binding, candidates);
      r := AsFound(matched);
    }

    /** What looking for the process gives when nothing interferes. */
    ghost predicate TrulyFound(pid: int, binding: Option<Result<Binding, HostCode>>, candidates: seq<Candidate>,
                               at: nat, found: Result<Candidate, Failure>) {
      && (found.Ok? ==> TrueTo(found.value, w.processes(at), naming))
      && if binding.None? then
           (found.Ok? <==> pid in w.processes(at)) && (found.Ok? ==> found.value.process.pid == pid)
         else if !hasProfiles || binding.value.Err? then
           found == Err(HostFailure(ResolverCode(hasProfiles, binding.value)))
         else
           Matches(binding.value.value, candidates, found) &&
           EveryOwn(w.processes(at), naming, candidates, MAXIMUM_INVENTORY_LIMIT)
    }

    /** The process asked for, by PID or through a binding. */
    method Find(pid: int, binding: Option<Result<Binding, HostCode>>)
      returns (found: Result<Candidate, Failure>, ghost candidates: seq<Candidate>)
      requires pid > 0 <==> binding.None?
      modifies w`now, w`faults
      ensures w.now >= old(w.now) && w.faults >= old(w.faults)
      ensures found.Err? ==> found.error.HostFailure? || found.error.ProcessFailure?
      ensures found.Ok? ==> Sighted(w.processes, naming, found.value, old(w.now), w.now) &&
                            Requested(found.value.process, pid, hasProfiles, binding, candidates)
      ensures binding.Some? ==> FoundFor(hasProfiles, binding.value, candidates, found)
      ensures AllOwned(w.processes, naming, candidates, old(w.now), w.now)
      ensures found == Err(ProcessFailure(NotFound)) && binding.None? ==>
                Absent(w.processes, pid, old(w.now), w.now)
      ensures w.faults == old(w.faults) && Still(w.processes, old(w.now), w.now) ==>
                TrulyFound(pid, binding, candidates, old(w.now), found)
    {
      hide Sighted, Owned, FoundFor, Matches, EveryOwn, TrueTo;
      candidates := [];
      if binding.Some? {
        found, candidates := BindingCandidate(binding.value);
        FoundFails(hasProfiles, binding.value, candidates, found);
        NoBinding(binding.value, candidates, found);
      } else {
        found := Snapshot(w, naming, pid);
      }
      if found.Ok? && Still(w.processes, old(w.now), w.now) {
        SightedTrue(w.processes, naming, found.value, old(w.now), w.now);
        TrueToPresent(found.value, old(w.now));
      }
    }

    lemma NoBinding(binding: Result<Binding, HostCode>, candidates: seq<Candidate>, found: Result<Candidate, Failure>)
      requires FoundFor(hasProfiles, binding, candidates, found)
      ensures !hasProfiles || binding.Err? ==> found == Err(HostFailure(ResolverCode(hasProfiles, binding)))
    {
    }

    lemma TrueToPresent(c: Candidate, at: nat)
      requires TrueTo(c, w.processes(at), naming)
      ensures c.process.pid in w.processes(at)
    {
    }

    /** `Inspect` of one PID.  What is observed is always presentable. */
    method InspectPid(pid: int) returns (r: Result<Proof, ServiceError>)
      requires LawfulProcesses(w.processes) && LawfulNaming(naming)
      modifies w`now, w`faults
      ensures w.faults >= old(w.faults) && w.now >= old(w.now)
      ensures r.Err? ==> r.error == Cancelled && w.faults > old(w.faults)
      ensures r.Ok? ==> Vouched(r.value, old(w.now), w.now) && r.value.decision.verdict == Unknown &&
                        r.value.host.None?
      ensures r.Ok? && r.value.process.Some? ==> r.value.process.value.pid == pid
      ensures w.faults == old(w.faults) && Still(w.processes, old(w.now), w.now) && pid > 0 ==>
                r.Ok? && (r.value.process.Some? <==> pid in w.processes(old(w.now)))
    {
      hide Sighted, Vouched, LawfulProcesses, LawfulNaming;
      var snapshot := Snapshot(w, naming, pid);
      if snapshot.Ok? && Still(w.processes, old(w.now), w.now) {
        SightedTrue(w.processes, naming, snapshot.value, old(w.now), w.now);
      }
      if * {
        w.faults := w.faults + 1;
        return Err(Cancelled);
      }
      r := Report(snapshot, false, None, old(w.now));
    }

    /** The proof about one binding names who was found, or nobody with the reasons. */
    ghost predicate InspectsBinding(p: Proof, binding: Result<Binding, HostCode>, candidates: seq<Candidate>,
                                    undisturbed: bool, at: nat) {
      exists found :: FoundFor(hasProfiles, binding, candidates, found) && Reports(p, found, true) &&
                      (undisturbed ==> (p.process.Some? <==> found.Ok?) &&
                                       TrulyFound(0, Some(binding), candidates, at, found))
    }

    /** `Inspect` of one binding; it fails exactly if the schema refuses the attribution. */
    method InspectBinding(binding: Result<Binding, HostCode>)
      returns (r: Result<Proof, ServiceError>, ghost candidates: seq<Candidate>)
      requires LawfulProcesses(w.processes) && LawfulNaming(naming)
      modifies w`now, w`faults
      ensures w.faults >= old(w.faults) && w.now >= old(w.now)
      ensures r.Ok? <==> HostFits(AttributedTo(hasProfiles, Some(binding)))
      ensures r.Err? ==> r.error == BuildFailed
      ensures r.Ok? ==> Vouched(r.value, old(w.now), w.now) &&
                        r.value.host == AttributedTo(hasProfiles, Some(binding))
      ensures r.Ok? ==> InspectsBinding(r.value, binding, candidates, w.faults == old(w.faults) &&
                          Still(w.processes, old(w.now), w.now), old(w.now))
    {
      hide Sighted, Vouched, LawfulProcesses, LawfulNaming, FoundFor, Reports, TrulyFound, HostFits, AttributedTo;
      var found;
      found, candidates := Find(0, Some(binding));
      r := Report(found, true, AttributedTo(hasProfiles, Some(binding)), old(w.now));
    }

    /** `Inspect` of everything: one proof for each candidate listed. */
    method InspectAll(limit: nat) returns (r: Result<seq<Proof>, ServiceError>, ghost candidates: seq<Candidate>)
      requires LawfulProcesses(w.processes) && LawfulNaming(naming)
      modifies w`now, w`faults
      ensures w.faults >= old(w.faults) && w.now >= old(w.now) && r != Err(BuildFailed)
      ensures r.Ok? ==> AscendingPids(candidates) &&
                        |candidates| <= if limit == 0 then DEFAULT_INVENTORY_LIMIT else limit
      ensures r.Ok? ==> AllOwned(w.processes, naming, candidates, old(w.now), w.now)
      ensures r.Ok? ==> |r.value| == |candidates| &&
                        forall i | 0 <= i < |candidates| :: Reports(r.value[i], Ok(candidates[i]), false)
      ensures r.Ok? ==> forall p | p in r.value :: Vouched(p, old(w.now), w.now)
      ensures w.faults == old(w.faults) && Still(w.processes, old(w.now), w.now) ==>
                r.Ok? && (forall p | p in r.value :: p.process.Some?) &&
                EveryOwn(w.processes(old(w.now)), naming, candidates,
                         if limit == 0 then DEFAULT_INVENTORY_LIMIT else limit)
    {
      hide Sighted, AllOwned, Vouched, Reports, EveryOwn, LawfulProcesses, LawfulNaming;
      var listed, _, _ := List(w, naming, if limit == 0 then DEFAULT_INVENTORY_LIMIT else limit);
      if listed.Err? {
        if * {
          w.faults := w.faults + 1;
          return Err(Cancelled), [];
        }
        return Err(ObserverFailed), [];
      }
      candidates := listed.value;
      ghost var upto, met := w.now, w.faults;
      var proofs: seq<Proof> := [];
      for i := 0 to |listed.value|
        invariant w.now >= upto && w.faults >= met && |proofs| == i
        invariant forall j | 0 <= j < i :: Reports(proofs[j], Ok(listed.value[j]), false)
        invariant w.faults == old(w.faults) && Still(w.processes, old(w.now), w.now) ==>
                    forall p | p in proofs :: p.process.Some?
        invariant forall p | p in proofs :: Vouched(p, old(w.now), w.now)
      {
        if * {
          w.faults := w.faults + 1;
          return Err(Cancelled), candidates;
        }
        ghost var middle := w.now;
        StillSighted(w.processes, naming, listed.value, old(w.now), upto, middle);
        var issued := Report(Ok(listed.value[i]), false, None, old(w.now));
        VouchedLater(proofs, old(w.now), middle, w.now);
        proofs := proofs + [issued.value];
      }
      OwnedLater(w.processes, naming, candidates, old(w.now), old(w.now), upto, w.now);
      r := Ok(proofs);
    }

    /**
      `inspectHost` and `hostFailureProof`, given what the profile resolver answered: one proof
      for each binding, unless the schema refuses the attribution of some binding.
     */
    method InspectHost(bindings: Result<seq<Binding>, HostCode>, limit: nat)
      returns (r: Result<seq<Proof>, ServiceError>, ghost candidates: seq<Candidate>)
      requires LawfulProcesses(w.processes) && LawfulNaming(naming)
      modifies w`now, w`faults
      ensures w.faults >= old(w.faults) && w.now >= old(w.now)
      ensures r.Ok? ==> forall p | p in r.value :: Vouched(p, old(w.now), w.now)
      ensures !hasProfiles || bindings.Err? ==>
                r.Ok? && |r.value| == 1 && r.value[0].process.None? && r.value[0].host.None? &&
                r.value[0].decision.reasons ==
                  [ExpectationMissing] + HostReason(Some(HostFailure(ResolverCode(hasProfiles, bindings))))
      ensures hasProfiles && bindings.Ok? && r.Ok? ==>
                |r.value| == |bindings.value| && AllFit(bindings.value) &&
                forall i | 0 <= i < |bindings.value| ::
                  ReportsBinding(r.value[i], bindings.value[i], candidates,
                                 w.faults == old(w.faults) && Still(w.processes, old(w.now), w.now))
      ensures r == Err(BuildFailed) ==> hasProfiles && bindings.Ok? && !AllFit(bindings.value)
      ensures r.Err? && r.error != BuildFailed ==>
                r.error == ObserverFailed && (w.faults > old(w.faults) || !Still(w.processes, old(w.now), w.now))
      ensures w.faults == old(w.faults) && Still(w.processes, old(w.now), w.now) && hasProfiles && bindings.Ok? ==>
                EveryOwn(w.processes(old(w.now)), naming, candidates,
                         if limit == 0 then DEFAULT_INVENTORY_LIMIT else limit)
    {
      hide Sighted, Vouched, ReportsBinding, EveryOwn, HostFits, LawfulProcesses, LawfulNaming;
      candidates := [];
      if !hasProfiles || bindings.Err? {
        r := HostFailureProof(ResolverCode(hasProfiles, bindings));
        NamesNobody(r.value[0], w.now);
        return;
      }
      var listed, _, _ := List(w, naming, if limit == 0 then DEFAULT_INVENTORY_LIMIT else limit);
      if listed.Err? {
        return Err(ObserverFailed), candidates;
      }
      candidates := listed.value;
      ghost var upto, met := w.now, w.faults;
      var proofs: seq<Proof> := [];
      for i := 0 to |bindings.value|
        invariant w.now >= upto && w.faults >= met && |proofs| == i && AllFit(bindings.value[..i])
        invariant forall j | 0 <= j < i ::
                    ReportsBinding(proofs[j], bindings.value[j], candidates,
                                   w.faults == old(w.faults) && Still(w.processes, old(w.now), w.now))
        invariant forall p | p in proofs :: Vouched(p, old(w.now), w.now)
      {
        ghost var middle := w.now;
        ghost var undisturbed := w.faults == old(w.faults) && Still(w.processes, old(w.now), w.now);
        StillSighted(w.processes, naming, listed.value, old(w.now), upto, middle);
        var issued := ReportOne(bindings.value[i], listed.value, old(w.now), old(w.faults));
        assert bindings.value[i] in bindings.value;
        if issued.Err? {
          return Err(BuildFailed), candidates;
        }
        VouchedLater(proofs, old(w.now), middle, w.now);
        ReportsLater(proofs, bindings.value[..i], candidates, undisturbed,
                     w.faults == old(w.faults) && Still(w.processes, old(w.now), w.now));
        assert bindings.value[..i + 1] == bindings.value[..i] + [bindings.value[i]];
        proofs := proofs + [issued.value];
      }
      assert bindings.value[..|bindings.value|] == bindings.value;
      r := Ok(proofs);
    }

    /** The attribution to each of these bindings is one the schema accepts. */
    ghost predicate AllFit(bindings: seq<Binding>) {
      forall b | b in bindings :: HostFits(Some(AttributionOf(b)))
    }

    method HostFailureProof(code: HostCode) returns (r: Result<seq<Proof>, ServiceError>)
      ensures r.Ok? && |r.value| == 1 && r.value[0].process.None? && r.value[0].host.None? &&
              r.value[0].decision.reasons == [ExpectationMissing] + HostReason(Some(HostFailure(code)))
    {
      var issued := Issue(Input(None, None, None, None, None, Some(HostFailure(code)), {}), None);
      r := Ok([issued.value]);
    }

    method ReportOne(binding: Binding, candidates: seq<Candidate>, ghost first: nat, ghost met: nat)
      returns (r: Result<Proof, ServiceError>)
      requires LawfulProcesses(w.processes) && LawfulNaming(naming) && met <= w.faults
      requires forall c | c in candidates :: Sighted(w.processes, naming, c, first, w.now)
      modifies w`now, w`faults
      ensures w.faults >= old(w.faults) && w.now >= old(w.now)
      ensures r.Ok? <==> HostFits(Some(AttributionOf(binding)))
      ensures r.Ok? ==> Vouched(r.value, first, w.now) &&
                        ReportsBinding(r.value, binding, candidates,
                                       w.faults == met && Still(w.processes, first, w.now))
    {
      hide Sighted, Vouched, Reports, Matches, HostFits, LawfulProcesses, LawfulNaming;
      var found := MatchOne(binding, candidates);
      r := Report(found, binding.id != "", Some(AttributionOf(binding)), first);
    }

    lemma ReportsLater(proofs: seq<Proof>, bindings: seq<Binding>, candidates: seq<Candidate>, before: bool,
                       after: bool)
      requires |proofs| == |bindings| && (after ==> before)
      requires forall i | 0 <= i < |proofs| :: ReportsBinding(proofs[i], bindings[i], candidates, before)
      ensures forall i | 0 <= i < |proofs| :: ReportsBinding(proofs[i], bindings[i], candidates, after)
    {
      hide Matches, Reports;
    }

    /** What an undisturbed digest of the declared artifact gives. */
    ghost predicate TrueArtifact(resolved: Resolved, artifact: Option<ArtifactObservation>, error: Option<Failure>,
                                 at: nat) {
      var path := CleanText(resolved.artifactRoot);
      && (artifact.Some? <==>
            path.rooted && DigestibleAt(w.disks(at), lib, LimitsOf(resolved), slash, path.segments))
      && (artifact.Some? ==> error.None? && exists root :: ArtifactUnder(resolved, artifact.value, root, at))
      && (artifact.None? ==>
            error.Some? && error.value.ArtifactFailure? && FailureExplained(resolved, error.value.reason, at))
    }

    /** The code says why the artifact could not be digested. */
    ghost predicate FailureExplained(resolved: Resolved, reason: Reason, at: nat) {
      var path := CleanText(resolved.artifactRoot);
      if path.rooted then Explained(w.disks(at), lib, LimitsOf(resolved), slash, path.segments, reason)
      else reason == ArtifactInaccessible
    }

    function ErrorOf(digest: Result<ArtifactObservation, DigestReason>): Option<Failure> {
      if digest.Ok? then None else Some(ArtifactFailure(digest.error))
    }

    ghost predicate ArtifactUnder(resolved: Resolved, o: ArtifactObservation, root: Id, at: nat) {
      var path := CleanText(resolved.artifactRoot).segments;
      FindRoot(w.disks(at), slash, path, |path|) == Handle(root) &&
      ArtifactAt(w.disks(at), lib, LimitsOf(resolved), root, o)
    }

    /** No directory of the artifact has a second name. */
    ghost predicate SinglyLinkedArtifact(resolved: Resolved, at: nat) {
      SinglyLinkedAt(w.disks(at), slash, CleanText(resolved.artifactRoot).segments)
    }

    /** The digest of a resolved expectation's artifact; the root must be absolute. */
    method DigestArtifact(resolved: Resolved)
      returns (r: Result<ArtifactObservation, DigestReason>, ghost root: Id, ghost instant: nat)
      requires LawfulDisks(w.disks) && LawfulLibrary(lib) && 0 <= resolved.value.maxBytes <= MAX_BYTES
      modifies w
      ensures old(w.now) <= instant <= w.now
      ensures r.Ok? ==> Pinpointed(w.disks, lib, LimitsOf(resolved), slash, CleanText(resolved.artifactRoot).segments,
                                   r.value, root, old(w.now), instant, w.now)
      ensures w.faults >= old(w.faults)
      ensures w.faults == old(w.faults) && Frozen(w.disks, old(w.now), w.now) &&
              SinglyLinkedArtifact(resolved, old(w.now)) ==>
                TrueArtifact(resolved, r.ToOption(), ErrorOf(r), old(w.now))
    {
      hide Explained, LawfulDisks, LawfulLibrary, CleanText, ArtifactAt, DigestibleAt, SinglyLinkedAt, Reached,
        FindRoot;
      root, instant := slash, w.now;
      if !CleanText(resolved.artifactRoot).rooted {
        return Err(ArtifactInaccessible), root, instant;
      }
      ghost var path := CleanText(resolved.artifactRoot).segments;
      r, root, instant := Digest(w, lib, LimitsOf(resolved), slash, CleanText(resolved.artifactRoot).segments);
      if r.Ok? && Frozen(w.disks, old(w.now), w.now) {
        assert w.disks(instant) == w.disks(old(w.now));
        ReachedStill(w.disks, slash, path, |path|, root, old(w.now), instant, w.now);
        assert ArtifactUnder(resolved, r.value, root, old(w.now));
      }
    }

    /**
      The reported process lived as one process around the instant at which the artifact was
      exactly what is reported.
     */
    ghost predicate Attested(p: Proof, resolved: Resolved, e: Evidence, first: nat, last: nat) {
      && p.process.Some? && p.artifact.Some?
      && first <= e.born <= e.loaded <= e.instant <= e.reborn <= e.reloaded <= last
      && Throughout(p.process.value, e.born, e.reborn)
      && Pinpointed(w.disks, lib, LimitsOf(resolved), slash, CleanText(resolved.artifactRoot).segments,
                    p.artifact.value, e.root, e.loaded, e.instant, e.reborn)
    }

    /** Before and after that instant the process had the artifact's entrypoint loaded. */
    ghost predicate Loaded(p: Proof, e: Evidence) {
      && p.process.Some? && p.artifact.Some? && p.artifact.value.entrypointIdentity.Some?
      && var pid := p.process.value.pid; var entrypoint := p.artifact.value.entrypointIdentity.value;
      && pid in w.processes(e.loaded) && w.processes(e.loaded)[pid].image == entrypoint
      && pid in w.processes(e.reloaded) && w.processes(e.reloaded)[pid].image == entrypoint
    }

    /** The reported process was seen running outside every allowed root. */
    ghost predicate SeenOutside(p: Proof, resolved: Resolved, first: nat, last: nat) {
      exists c: Candidate :: p.process == Some(c.process) && Sighted(w.processes, naming, c, first, last) &&
                  !WithinAny(resolved.allowedRoots, c.declaredPath)
    }

    /** What each verdict is worth. */
    ghost predicate Warranted(p: Proof, resolved: Resolved, known: set<string>, e: Evidence, first: nat, last: nat) {
      match p.decision.verdict
      case Matched => Native(resolved) && Attested(p, resolved, e, first, last) && Loaded(p, e) &&
                      p.artifact.value.sha256 == resolved.value.sha256
      case Stale => Attested(p, resolved, e, first, last) && p.artifact.value.sha256 != resolved.value.sha256 &&
                    p.artifact.value.sha256 in known && (Native(resolved) ==> Loaded(p, e))
      case Leaked => Native(resolved) && SeenOutside(p, resolved, first, last)
      case NotRunning => p.process.None? && p.artifact.None?
      case _ => true
    }

    /** The proof evaluates the process found and the artifact that is there. */
    ghost predicate Judged(p: Proof, found: Result<Candidate, Failure>, resolved: Resolved, bound: bool,
                           known: set<string>, at: nat) {
      && p.process == (if found.Ok? then Some(found.value.process) else None)
      && exists error :: JudgedWith(p, found, resolved, bound, known, error, at)
    }

    ghost predicate JudgedWith(p: Proof, found: Result<Candidate, Failure>, resolved: Resolved, bound: bool,
                               known: set<string>, error: Option<Failure>, at: nat) {
      && (if found.Ok? then TrueArtifact(resolved, p.artifact, error, at) else p.artifact.None? && error.None?)
      && p.decision == Evaluate(InputFor(found, resolved, bound, known, p.artifact, error))
    }

    /** What `Verify` must say when nothing interferes. */
    ghost predicate Undisturbed(p: Proof, pid: int, binding: Option<Result<Binding, HostCode>>,
                                candidates: seq<Candidate>, resolved: Resolved, known: set<string>, at: nat) {
      exists found :: TrulyFound(pid, binding, candidates, at, found) &&
                      Judged(p, found, resolved, binding.Some?, known, at)
    }

    /**
      `Verify`.  If not cancelled, a well-formed request gets its proof exactly if the schema
      accepts the attribution.  The proof says what its verdict is worth: for MATCHED, some
      instant inside the call saw the reported process alive and the declared artifact with
      the expected digest, and the process had that artifact's entrypoint loaded before and
      after.  When nothing interferes, the verdict is that on what is really there.
     */
    method Verify(pid: int, binding: Option<Result<Binding, HostCode>>, resolved: Option<Resolved>, known: set<string>)
      returns (r: Result<Proof, ServiceError>, ghost e: Evidence, ghost candidates: seq<Candidate>)
      requires LawfulDisks(w.disks) && LawfulProcesses(w.processes) && LawfulLibrary(lib) && LawfulNaming(naming)
      requires resolved.Some? ==> 0 <= resolved.value.value.maxBytes <= MAX_BYTES
      modifies w
      ensures w.now >= old(w.now) && w.faults >= old(w.faults)
      ensures r == Err(InvalidInput) <==> (pid > 0) == binding.Some? || pid < 0 || resolved.None?
      ensures r.Err? ==> r.error == InvalidInput || r.error == BuildFailed ||
                         (r.error == Cancelled && w.faults > old(w.faults))
      ensures r.Ok? ==> HostFits(AttributedTo(hasProfiles, binding)) &&
                        r.value.host == AttributedTo(hasProfiles, binding)
      ensures r == Err(BuildFailed) ==> !HostFits(AttributedTo(hasProfiles, binding))
      ensures r.Ok? ==> Vouched(r.value, old(w.now), w.now) &&
                        Warranted(r.value, resolved.value, known, e, old(w.now), w.now)
      ensures r.Ok? && r.value.process.Some? ==> Requested(r.value.process.value, pid, hasProfiles, binding, candidates)
      ensures r.Ok? ==> AllOwned(w.processes, naming, candidates, old(w.now), w.now)
      ensures r.Ok? && binding.None? && r.value.decision.verdict == NotRunning ==>
                Absent(w.processes, pid, old(w.now), w.now)
      ensures r.Ok? ==> (r.value.decision.verdict == Conflict <==>
                           binding.Some? && Ambiguous(hasProfiles, binding.value, candidates))
      ensures r.Ok? && w.faults == old(w.faults) && SinglyLinkedArtifact(resolved.value, old(w.now)) &&
              Frozen(w.disks, old(w.now), w.now) && Still(w.processes, old(w.now), w.now) ==>
                Undisturbed(r.value, pid, binding, candidates, resolved.value, known, old(w.now))
    {
      hide AllOwned, Warranted, Vouched, Sighted, TrulyFound, Judged, Rechecked, Pinpointed, InputFor, Lost, Absent,
        TrueArtifact, SinglyLinkedArtifact, Frozen, Still, Evaluate, Presentable, HostFits, AttributedTo,
        LawfulDisks, LawfulProcesses, LawfulLibrary, LawfulNaming;
      e, candidates := Evidence(0, 0, 0, 0, 0, slash), [];
      if (pid > 0) == binding.Some? || pid < 0 || resolved.None? {
        return Err(InvalidInput), e, candidates;
      }
      ghost var first := w.now;
      var found;
      found, candidates := Find(pid, binding);
      if * {
        w.faults := w.faults + 1;
        return Err(Cancelled), e, candidates;
      }
      ghost var middle := w.now;
      var input;
      ghost var root, instant, between;
      input, root, instant, between := Gather(found, resolved.value, binding.Some?, known);
      OwnedLater(w.processes, naming, candidates, first, first, middle, w.now);
      if * {
        w.faults := w.faults + 1;
        return Err(Cancelled), e, candidates;
      }
      r := Issue(input, AttributedTo(hasProfiles, binding));
      if r.Err? {
        return;
      }
      e := Warrant(r.value, input, first, middle, instant, between, root);
      ConflictFor(input, found, resolved.value, known, binding, candidates);
      if binding.None? && r.value.decision.verdict == NotRunning {
        NotRunningByPid(input, found, resolved.value, known);
        AbsentWider(pid, first, middle, between, w.now);
      }
      if w.faults == old(w.faults) && SinglyLinkedArtifact(resolved.value, first) &&
         Frozen(w.disks, first, w.now) && Still(w.processes, first, w.now) {
        QuietHalves(first, middle, w.now);
        SameArtifact(resolved.value, input.artifact, input.artifactError, first, middle);
        if found.Ok? {
          NotLost(w.processes, naming, found.value, first, middle, between, w.now);
        }
        Judge(r.value, input, found, resolved.value, binding.Some?, known, first);
      }
    }

    /** The running program is the approved artifact: what MATCHED is meant to say. */
    ghost predicate Approved(resolved: Resolved, process: Process, at: nat) {
      var root := CleanText(resolved.artifactRoot); var path := TrimDeleted(process.imagePath);
      && Native(resolved) && resolved.value.fingerprints == [] && WithinAny(resolved.allowedRoots, path)
      && EquivalentPath(EntrypointPath(resolved.artifactRoot, resolved.value.entrypoint), path)
      && root.rooted && DigestibleAt(w.disks(at), lib, LimitsOf(resolved), slash, root.segments)
      && exists o, id :: ArtifactUnder(resolved, o, id, at) && o.sha256 == resolved.value.sha256 &&
                         o.entrypointIdentity == Some(process.image)
    }

    /** With nothing interfering, MATCHED is reported exactly for an approved process. */
    lemma {:induction false} ApprovedExactly(p: Proof, found: Result<Candidate, Failure>, resolved: Resolved,
                                             bound: bool, known: set<string>, at: nat)
      requires Judged(p, found, resolved, bound, known, at)
      requires found.Ok? ==> TrueTo(found.value, w.processes(at), naming)
      ensures p.decision.verdict == Matched <==>
                found.Ok? && found.value.process.pid in w.processes(at) &&
                Approved(resolved, w.processes(at)[found.value.process.pid], at)
    {
      hide Evaluate, WithinAny, EquivalentPath, EntrypointPath, CleanText, DigestibleAt, LimitsOf, ArtifactAt, FindRoot,
        TrimDeleted;
      var error :| JudgedWith(p, found, resolved, bound, known, error, at);
      MatchedExactly(InputFor(found, resolved, bound, known, p.artifact, error));
      if found.Ok? && p.artifact.Some? {
        var root :| ArtifactUnder(resolved, p.artifact.value, root, at);
        forall o, id | ArtifactUnder(resolved, o, id, at) ensures o == p.artifact.value {
          OneArtifact(resolved, o, id, p.artifact.value, root, at);
        }
      }
    }

    /**
      With nothing interfering, a process where it must be whose artifact cannot be digested is
      UNKNOWN, for a reason that is true of what is there.
     */
    lemma {:induction false} FailureReported(p: Proof, found: Result<Candidate, Failure>, resolved: Resolved,
                                             bound: bool, known: set<string>, at: nat)
      requires Judged(p, found, resolved, bound, known, at) && found.Ok? && p.artifact.None?
      requires Native(resolved) ==> RunsEntrypoint(found.value, resolved)
      ensures exists reason: Reason ::
                FailureExplained(resolved, reason, at) && p.decision == Decision(Unknown, ConfigBound, [reason], [])
    {
      hide Evaluate, RunsEntrypoint, CleanText, DigestibleAt, LimitsOf, Explained;
      var error :| JudgedWith(p, found, resolved, bound, known, error, at);
      UnknownAboutArtifact(InputFor(found, resolved, bound, known, None, error));
      assert FailureExplained(resolved, error.value.reason, at);
    }

    lemma OneArtifact(resolved: Resolved, o: ArtifactObservation, root: Id, o': ArtifactObservation, root': Id, at: nat)
      requires ArtifactUnder(resolved, o, root, at) && ArtifactUnder(resolved, o', root', at)
      ensures o == o'
    {
      hide CleanText, LimitsOf, ArtifactAt, FindRoot;
      ArtifactIsUnique(w.disks(at), lib, LimitsOf(resolved), root, o, o');
    }

    /** CONFLICT is reported exactly for what was found to be ambiguous. */
    lemma ConflictFor(input: Input, found: Result<Candidate, Failure>, resolved: Resolved, known: set<string>,
                      binding: Option<Result<Binding, HostCode>>, candidates: seq<Candidate>)
      requires input.expectation.Some? && (binding.None? || found.Ok? ==> input.hostError.None?)
      requires found.Err? ==> input == InputFor(found, resolved, binding.Some?, known, None, None)
      requires binding.Some? ==> FoundFor(hasProfiles, binding.value, candidates, found)
      ensures Evaluate(input).verdict == Conflict <==>
                binding.Some? && Ambiguous(hasProfiles, binding.value, candidates)
    {
      hide Evaluate, FoundFor, Ambiguous;
      ConflictExactly(input);
      if binding.Some? {
        FoundExactly(hasProfiles, binding.value, candidates, found);
      }
    }

    /** With nothing interfering, a binding nobody fits is NOT_RUNNING, and an ambiguous one is a CONFLICT. */
    lemma {:induction false} BindingVerdicts(p: Proof, pid: int, binding: Result<Binding, HostCode>,
                                             candidates: seq<Candidate>, resolved: Resolved, known: set<string>,
                                             at: nat)
      requires Undisturbed(p, pid, Some(binding), candidates, resolved, known, at)
      ensures Ambiguous(hasProfiles, binding, candidates) ==>
                p.decision == Decision(Conflict, ConfigBound, [Reason.HostBindingAmbiguous], [])
      ensures NobodyFits(hasProfiles, binding, candidates) <==> p.decision.verdict == NotRunning
      ensures p.decision.verdict == NotRunning ==>
                p.decision == Decision(NotRunning, ConfigBound, [ProcessNotFound], [])
    {
      hide Evaluate, Ambiguous, NobodyFits, Matches, EveryOwn, TrueTo, TrueArtifact;
      var found :| TrulyFound(pid, Some(binding), candidates, at, found) && Judged(p, found, resolved, true, known, at);
      var error :| JudgedWith(p, found, resolved, true, known, error, at);
      var input := InputFor(found, resolved, true, known, p.artifact, error);
      MatchFails(binding, candidates, found);
      FoundExactly(hasProfiles, binding, candidates, found);
      ConflictExactly(input);
      NotRunningExactly(input);
    }

    lemma MatchFails(binding: Result<Binding, HostCode>, candidates: seq<Candidate>, found: Result<Candidate, Failure>)
      requires if !hasProfiles || binding.Err? then found == Err(HostFailure(ResolverCode(hasProfiles, binding)))
               else Matches(binding.value, candidates, found)
      ensures FoundFor(hasProfiles, binding, candidates, found)
      ensures found.Err? ==> found.error.HostFailure?
    {
    }

    lemma NotRunningByPid(input: Input, found: Result<Candidate, Failure>, resolved: Resolved, known: set<string>)
      requires Evaluate(input).verdict == NotRunning && input.hostError.None?
      requires found.Err? ==> input == InputFor(found, resolved, false, known, None, None)
      ensures input.processError == Some(ProcessFailure(NotFound))
      ensures found.Err? ==> found.error == ProcessFailure(NotFound)
    {
      hide WithinAny, EquivalentPath;
    }

    lemma AbsentWider(pid: int, first: nat, middle: nat, between: nat, last: nat)
      requires first <= middle <= between <= last
      ensures Absent(w.processes, pid, first, middle) || Absent(w.processes, pid, between, last) ==>
                Absent(w.processes, pid, first, last)
    {
    }

    lemma QuietHalves(first: nat, middle: nat, last: nat)
      requires first <= middle <= last && Frozen(w.disks, first, last) && Still(w.processes, first, last)
      ensures Still(w.processes, first, middle) && Frozen(w.disks, middle, last)
      ensures w.disks(middle) == w.disks(first)
    {
      assert w.disks(middle) == w.disks(first);
    }

    lemma SameArtifact(resolved: Resolved, artifact: Option<ArtifactObservation>, error: Option<Failure>, first: nat,
                       middle: nat)
      requires w.disks(middle) == w.disks(first)
      ensures SinglyLinkedArtifact(resolved, first) <==> SinglyLinkedArtifact(resolved, middle)
      ensures TrueArtifact(resolved, artifact, error, middle) ==> TrueArtifact(resolved, artifact, error, first)
    {
      hide Explained, DigestibleAt, ArtifactAt, FindRoot, CleanText, LimitsOf;
      if TrueArtifact(resolved, artifact, error, middle) && artifact.Some? {
        var root :| ArtifactUnder(resolved, artifact.value, root, middle);
        assert ArtifactUnder(resolved, artifact.value, root, first);
      }
    }

    lemma Judge(p: Proof, input: Input, found: Result<Candidate, Failure>, resolved: Resolved, bound: bool,
                known: set<string>, at: nat)
      requires p.decision == Evaluate(input) && p.artifact == input.artifact
      requires p.process == if input.candidate.Some? then Some(input.candidate.value.process) else None
      requires found.Err? ==> input == InputFor(found, resolved, bound, known, None, None)
      requires found.Ok? ==> input == InputFor(found, resolved, bound, known, input.artifact, input.artifactError) &&
                             TrueArtifact(resolved, input.artifact, input.artifactError, at)
      ensures Judged(p, found, resolved, bound, known, at)
    {
      hide Evaluate, TrueArtifact;
      assert JudgedWith(p, found, resolved, bound, known, input.artifactError, at);
    }

    /** The evidence behind the proof of one gathered input. */
    lemma {:induction false} Warrant(p: Proof, input: Input, first: nat, middle: nat, instant: nat, between: nat,
                                     root: Id)
      returns (e: Evidence)
      requires LawfulProcesses(w.processes) && LawfulNaming(naming) && first <= middle <= instant <= between <= w.now
      requires input.expectation.Some? && p.decision == Evaluate(input) && p.artifact == input.artifact &&
               Presentable(input)
      requires p.process == if input.candidate.Some? then Some(input.candidate.value.process) else None
      requires input.candidate.Some? ==>
                 Sighted(w.processes, naming, input.candidate.value, first, middle) &&
                 Rechecked(input.candidate.value, between)
      requires input.candidate.Some? && input.artifact.Some? ==>
                 Pinpointed(w.disks, lib, LimitsOf(input.expectation.value), slash,
                            CleanText(input.expectation.value.artifactRoot).segments, input.artifact.value, root,
                            middle, instant, between)
      ensures Vouched(p, first, w.now)
      ensures Warranted(p, input.expectation.value, input.knownPriorDigests, e, first, w.now)
    {
      hide Sighted, Rechecked, Pinpointed, Vouched, Attested, Loaded, Evaluate, LawfulProcesses, LawfulNaming,
        CleanText, LimitsOf, WithinAny, EquivalentPath;
      var resolved := input.expectation.value;
      e := Evidence(first, first, instant, between, between, root);
      if input.candidate.None? {
        NamesNobody(p, first);
      } else {
        Vouch(p, input.candidate.value, first, middle, between);
        if input.artifact.Some? {
          e := Testify(p, resolved, input.candidate.value, first, middle, instant, between, root);
        }
        StillSighted(w.processes, naming, [input.candidate.value], first, middle, w.now);
        assert [input.candidate.value][0] == input.candidate.value;
      }
      MatchedExactly(input);
      StaleExactly(input);
      LeakedExactly(input);
      NotRunningKeepsNothing(input);
    }

    lemma NotRunningKeepsNothing(input: Input)
      requires Presentable(input)
      ensures Evaluate(input).verdict == NotRunning ==> input.candidate.None? && input.artifact.None?
    {
      EvaluatorAgreesExactly(input);
    }

    /** What is evaluated when the process found was seen again, or none was found. */
    function InputFor(found: Result<Candidate, Failure>, resolved: Resolved, bound: bool, known: set<string>,
                      artifact: Option<ArtifactObservation>, artifactError: Option<Failure>): Input {
      var error := if found.Err? then Some(found.error) else None;
      Input(found.ToOption(), Some(resolved), artifact, error, artifactError, HostErrorOnly(bound, error), known)
    }

    /** The artifact is digested between the first look at the process and the second. */
    method Gather(found: Result<Candidate, Failure>, resolved: Resolved, bound: bool, known: set<string>)
      returns (input: Input, ghost root: Id, ghost instant: nat, ghost between: nat)
      requires LawfulDisks(w.disks) && LawfulLibrary(lib) && 0 <= resolved.value.maxBytes <= MAX_BYTES
      requires found.Err? ==> found.error.HostFailure? || found.error.ProcessFailure?
      modifies w
      ensures old(w.now) <= instant <= between <= w.now
      ensures Presentable(input) && input.expectation == Some(resolved) && input.knownPriorDigests == known
      ensures input.candidate.Some? ==> found == Ok(input.candidate.value) && Rechecked(input.candidate.value, between)
      ensures input.candidate.Some? && input.artifact.Some? ==>
                Pinpointed(w.disks, lib, LimitsOf(resolved), slash, CleanText(resolved.artifactRoot).segments,
                           input.artifact.value, root, old(w.now), instant, between)
      ensures w.faults >= old(w.faults)
      ensures found.Err? ==> input == InputFor(found, resolved, bound, known, None, None)
      ensures found.Ok? && input.candidate.Some? ==>
                input == InputFor(found, resolved, bound, known, input.artifact, input.artifactError) &&
                (input.artifact.Some? <==> input.artifactError.None?)
      ensures found.Ok? && input.candidate.None? && w.faults == old(w.faults) ==>
                Lost(w.processes, naming, found.value, between, w.now)
      ensures found.Ok? && input.processError == Some(ProcessFailure(NotFound)) && found.value.process.pid > 0 ==>
                Absent(w.processes, found.value.process.pid, between, w.now)
      ensures !bound || found.Ok? ==> input.hostError.None?
      ensures found.Ok? && input.candidate.Some? && w.faults == old(w.faults) &&
              Frozen(w.disks, old(w.now), w.now) && SinglyLinkedArtifact(resolved, old(w.now)) ==>
                TrueArtifact(resolved, input.artifact, input.artifactError, old(w.now))
    {
      hide LawfulDisks, LawfulLibrary, Pinpointed, Rechecked, EvaluatePaths, Lost, TrueArtifact, SinglyLinkedArtifact;
      var artifact: Option<ArtifactObservation>, artifactError: Option<Failure> := None, None;
      root, instant := slash, w.now;
      if found.Ok? {
        var digest;
        digest, root, instant := DigestArtifact(resolved);
        if digest.Ok? {
          artifact := Some(digest.value);
        } else {
          artifactError := Some(ArtifactFailure(digest.error));
        }
      }
      between := w.now;
      var candidate, processError := Recheck(found);
      if candidate.None? {
        artifact, artifactError := None, None;
      }
      input := Input(candidate, Some(resolved), artifact, processError, artifactError,
        HostErrorOnly(bound, processError), known);
    }

    lemma {:induction false} Testify(p: Proof, resolved: Resolved, c: Candidate, first: nat, middle: nat, instant: nat,
                                     between: nat, root: Id)
      returns (e: Evidence)
      requires LawfulProcesses(w.processes) && LawfulNaming(naming) && middle <= instant <= between
      requires Sighted(w.processes, naming, c, first, middle) && Rechecked(c, between)
      requires p.process == Some(c.process) && p.artifact.Some?
      requires Pinpointed(w.disks, lib, LimitsOf(resolved), slash, CleanText(resolved.artifactRoot).segments,
                          p.artifact.value, root, middle, instant, between)
      ensures Attested(p, resolved, e, first, w.now)
      ensures LoadedEntrypoint(c, p.artifact.value) ==> Loaded(p, e)
    {
      hide Pinpointed, LawfulProcesses, LawfulNaming, Sighted, Rechecked, Throughout, Born, CleanText, LimitsOf;
      var born, loaded, reborn, reloaded := Lives(c, first, middle, between);
      e := Evidence(born, loaded, instant, reborn, reloaded, root);
      PinpointedWider(w.disks, lib, LimitsOf(resolved), slash, CleanText(resolved.artifactRoot).segments,
                      p.artifact.value, root, loaded, middle, instant, between, reborn);
    }

    lemma PinpointedWider(run: nat -> Disk, lib: Library, limits: TreeAcceptance.Limits, slash: Id, path: Path,
                          o: ArtifactObservation, root: Id, sooner: nat, first: nat, instant: nat, last: nat,
                          later: nat)
      requires sooner <= first && last <= later &&
               Pinpointed(run, lib, limits, slash, path, o, root, first, instant, last)
      ensures Pinpointed(run, lib, limits, slash, path, o, root, sooner, instant, later)
    {
      ReachedWithin(run, slash, path, root, sooner, first, instant, instant);
      ReachedWithin(run, slash, path, root, instant, instant, last, later);
    }
  }
}
