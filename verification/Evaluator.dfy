/** The verdict function of internal/evaluator/evaluator.go. */
module Evaluator {
  import opened ArtifactIdentity
  import opened Basics
  import opened Decisions
  import opened Expectations
  import opened Observations
  import Selection

  datatype Input = Input(candidate: Option<Candidate>, expectation: Option<Resolved>,
                         artifact: Option<ArtifactObservation>,
                         processError: Option<Failure>, artifactError: Option<Failure>, hostError: Option<Failure>,
                         knownPriorDigests: set<string>)

  datatype Decision = Decision(verdict: Verdict, level: Level, reasons: seq<Reason>, limitations: seq<Reason>)

  function Decide(verdict: Verdict, level: Level, reason: Reason): Decision {
    Decision(verdict, level, [reason], [])
  }

  /** `hostReason`, one code or none. */
  function HostReason(error: Option<Failure>): seq<Reason> {
    if error.None? || !error.value.HostFailure? then []
    else
      match error.value.code
      case HostProcessNotRunning => [ProcessNotFound]
      case HostProcessAmbiguous => [Reason.HostBindingAmbiguous]
      case HostBindingAmbiguous => [Reason.HostBindingAmbiguous]
      case HostConfigInvalid => [Reason.HostConfigInvalid]
      case HostConfigInaccessible => [Reason.HostConfigInaccessible]
      case _ => []
  }

  /** `processReason`. */
  function ProcessReason(error: Option<Failure>): seq<Reason> {
    if error.None? || !error.value.ProcessFailure? then []
    else
      match error.value.kind
      case NotFound => [ProcessNotFound]
      case Inaccessible => [ProcessInaccessible]
      case IdentityChanged => [ProcessIdentityChanged]
      case Internal => []
  }

  predicate Native(expectation: Resolved) {
    expectation.value.launchKind == "native"
  }

  function Evaluate(input: Input): Decision {
    if input.expectation.None? then
      Decision(Unknown, ProcessObserved,
        [ExpectationMissing] + HostReason(input.hostError) + ProcessReason(input.processError),
               [ExpectationMissing])
    else if input.hostError.Some? then EvaluateHostError(input.hostError.value)
    else if input.processError.Some? then EvaluateProcessError(input.processError.value)
    else if input.candidate.None? then Decide(Unknown, ConfigBound, ProcessInaccessible)
    else
      match EvaluatePaths(input.candidate.value, input.expectation.value)
      case Some(decision) => decision
      case None => EvaluateArtifact(input, input.candidate.value, input.expectation.value)
  }

  function EvaluateHostError(error: Failure): Decision {
    if error.HostFailure? && error.code.HostProcessNotRunning? then Decide(NotRunning, ConfigBound, ProcessNotFound)
    else if error.HostFailure? && (error.code.HostProcessAmbiguous? || error.code.HostBindingAmbiguous?) then
      Decide(Conflict, ConfigBound, Reason.HostBindingAmbiguous)
    else if error.HostFailure? && error.code.HostConfigInvalid? then
      Decide(Unknown, ConfigBound, Reason.HostConfigInvalid)
    else Decide(Unknown, ConfigBound, Reason.HostConfigInaccessible)
  }

  function EvaluateProcessError(error: Failure): Decision {
    if error.ProcessFailure? && error.kind.NotFound? then Decide(NotRunning, ConfigBound, ProcessNotFound)
    else if error.ProcessFailure? && error.kind.IdentityChanged? then
      Decide(Unknown, ConfigBound, ProcessIdentityChanged)
    else Decide(Unknown, ConfigBound, ProcessInaccessible)
  }

  /** A native launch must run inside an allowed root, and from the declared entrypoint. */
  function EvaluatePaths(candidate: Candidate, expectation: Resolved): Option<Decision> {
    if !Native(expectation) then None
    else if !WithinAny(expectation.allowedRoots, candidate.declaredPath) then
      Some(Decide(Leaked, ConfigBound, RuntimeOutsideAllowedRoot))
    else if !EquivalentPath(
      EntrypointPath(expectation.artifactRoot, expectation.value.entrypoint), candidate.declaredPath) then
      Some(Decide(Unknown, ConfigBound, Reason.HostBindingAmbiguous))
    else None
  }

  function EvaluateArtifact(input: Input, candidate: Candidate, expectation: Resolved): Decision {
    if input.artifactError.Some? then
      Decide(Unknown, ConfigBound,
             if input.artifactError.value.ArtifactFailure? then input.artifactError.value.reason
             else ArtifactInaccessible)
    else if input.artifact.None? then Decide(Unknown, ConfigBound, ArtifactInaccessible)
    else
      match EvaluateIdentity(candidate, expectation, input.artifact.value)
      case Some(decision) => decision
      case None => EvaluateDigest(input.artifact.value, expectation, input.knownPriorDigests)
  }

  /** A native launch must have loaded the entrypoint that was hashed. */
  function EvaluateIdentity(candidate: Candidate, expectation: Resolved, artifact: ArtifactObservation)
    : Option<Decision>
  {
    if !Native(expectation) then None
    else if candidate.fileIdentity.None? || artifact.entrypointIdentity.None? then
      Some(Decide(Unknown, ArtifactObserved, PlatformEvidenceUnavailable))
    else if candidate.fileIdentity != artifact.entrypointIdentity then
      Some(Decide(Unknown, ArtifactObserved, PossibleStaleAfterReplacement))
    else if |expectation.value.fingerprints| > 0 then
      Some(Decide(Unknown, ArtifactObserved, PlatformEvidenceUnavailable))
    else None
  }

  function EvaluateDigest(artifact: ArtifactObservation, expectation: Resolved, known: set<string>): Decision {
    var untrusted := if expectation.value.trust == "untrusted" then [ExpectationUntrusted] else [];
    if artifact.sha256 != expectation.value.sha256 then
      if artifact.sha256 in known then Decide(Stale, ArtifactObserved, ArtifactMismatch)
      else Decide(Unknown, ArtifactObserved, PossibleStaleAfterReplacement)
    else if !Native(expectation) then
      Decision(Unknown, ArtifactObserved, [PlatformEvidenceUnavailable], untrusted + [DynamicDependenciesUnproven])
    else Decision(Matched, ArtifactObserved, [MatchConfirmed], untrusted)
  }

  // ----- What the verdicts mean ------------------------------------------------------------------

  /** Nothing failed, and everything the verdict needs was observed. */
  predicate Complete(input: Input) {
    && input.expectation.Some? && input.candidate.Some? && input.artifact.Some?
    && input.hostError.None? && input.processError.None? && input.artifactError.None?
  }

  predicate RunsEntrypoint(candidate: Candidate, expectation: Resolved) {
    && WithinAny(expectation.allowedRoots, candidate.declaredPath)
    && EquivalentPath(EntrypointPath(expectation.artifactRoot, expectation.value.entrypoint), candidate.declaredPath)
  }

  predicate LoadedEntrypoint(candidate: Candidate, artifact: ArtifactObservation) {
    candidate.fileIdentity.Some? && candidate.fileIdentity == artifact.entrypointIdentity
  }

  /** MATCHED: a native launch from the declared entrypoint, loaded from the hashed file, with the expected digest. */
  lemma {:induction false} MatchedExactly(input: Input)
    ensures Evaluate(input).verdict == Matched <==>
              Complete(input) &&
                var e := input.expectation.value; var c := input.candidate.value; var a := input.artifact.value;
              Native(e) && RunsEntrypoint(c, e) && LoadedEntrypoint(c, a) && e.value.fingerprints == [] &&
              a.sha256 == e.value.sha256
  {
  }

  /** LEAKED: nothing failed before, and a native candidate runs outside every allowed root. */
  lemma {:induction false} LeakedExactly(input: Input)
    ensures Evaluate(input).verdict == Leaked <==>
              input.expectation.Some? && input.candidate.Some? && input.hostError.None? && input.processError.None? &&
              Native(input.expectation.value) &&
              !WithinAny(input.expectation.value.allowedRoots, input.candidate.value.declaredPath)
  {
  }

  /**
    STALE: the digest differs from the expected one and is a known prior one.  Only native
    launches are first checked for where they run and what they loaded, so an interpreter
    launch can be STALE too.
   */
  lemma {:induction false} StaleExactly(input: Input)
    ensures Evaluate(input).verdict == Stale <==>
              Complete(input) &&
                var e := input.expectation.value; var c := input.candidate.value; var a := input.artifact.value;
              a.sha256 != e.value.sha256 && a.sha256 in input.knownPriorDigests &&
              (Native(e) ==> RunsEntrypoint(c, e) && LoadedEntrypoint(c, a) && e.value.fingerprints == [])
  {
  }

  /** CONFLICT: the host's bindings, or the processes that fit one, are ambiguous. */
  lemma {:induction false} ConflictExactly(input: Input)
    ensures Evaluate(input).verdict == Conflict <==>
              input.expectation.Some? &&
              input.hostError in {Some(HostFailure(HostProcessAmbiguous)),
                                  Some(HostFailure(HostCode.HostBindingAmbiguous))}
    ensures Evaluate(input).verdict == Conflict ==>
              Evaluate(input) == Decision(Conflict, ConfigBound, [Reason.HostBindingAmbiguous], [])
  {
  }

  /** NOT_RUNNING: the host reports no process for the binding, or there is no host failure and no process. */
  lemma {:induction false} NotRunningExactly(input: Input)
    ensures Evaluate(input).verdict == NotRunning <==>
              input.expectation.Some? &&
              (input.hostError == Some(HostFailure(HostProcessNotRunning)) ||
               (input.hostError.None? && input.processError == Some(ProcessFailure(NotFound))))
    ensures Evaluate(input).verdict == NotRunning ==>
              Evaluate(input) == Decision(NotRunning, ConfigBound, [ProcessNotFound], [])
  {
  }

  /** The whole decision behind the other verdicts. */
  lemma {:induction false} DecisionBehind(input: Input)
    ensures var d := Evaluate(input);
            && (d.verdict == Leaked ==> d == Decision(Leaked, ConfigBound, [RuntimeOutsideAllowedRoot], []))
            && (d.verdict == Stale ==> d == Decision(Stale, ArtifactObserved, [ArtifactMismatch], []))
            && (d.verdict == Matched ==>
                  && d.level == ArtifactObserved && d.reasons == [MatchConfirmed] && input.expectation.Some?
                  && d.limitations ==
                       (if input.expectation.value.value.trust == "untrusted" then [ExpectationUntrusted] else []))
  {
    hide WithinAny, EquivalentPath;
  }

  /** The process was observed where a native launch must run, so the artifact is what remains to be judged. */
  predicate InPlace(input: Input) {
    && input.expectation.Some? && input.hostError.None? && input.processError.None? && input.candidate.Some?
    && (Native(input.expectation.value) ==> RunsEntrypoint(input.candidate.value, input.expectation.value))
  }

  /** UNKNOWN, with its reason, when the host or the process could not be judged. */
  lemma {:induction false} UnknownBeforeArtifact(input: Input)
    requires input.expectation.Some? && !InPlace(input)
    ensures var d := Evaluate(input); var host := input.hostError; var process := input.processError;
            && (d.verdict == Unknown ==> d == Decision(Unknown, ConfigBound, d.reasons, []) && |d.reasons| == 1)
            && (d.verdict == Unknown && d.reasons == [Reason.HostConfigInvalid] <==>
                  host == Some(HostFailure(HostCode.HostConfigInvalid)))
            && (d.verdict == Unknown && d.reasons == [Reason.HostConfigInaccessible] <==>
                  host.Some? && host !in {Some(HostFailure(HostProcessNotRunning)),
                                          Some(HostFailure(HostProcessAmbiguous)),
                                          Some(HostFailure(HostCode.HostBindingAmbiguous)),
                                          Some(HostFailure(HostCode.HostConfigInvalid))})
            && (d.verdict == Unknown && d.reasons == [ProcessIdentityChanged] <==>
                  host.None? && process == Some(ProcessFailure(IdentityChanged)))
            && (d.verdict == Unknown && d.reasons == [ProcessInaccessible] <==>
                  host.None? &&
                  (if process.Some? then
                     process.value !in {ProcessFailure(NotFound), ProcessFailure(IdentityChanged)}
                   else input.candidate.None?))
            && (d.verdict == Unknown && d.reasons == [Reason.HostBindingAmbiguous] <==>
                  host.None? && process.None? && input.candidate.Some? && Native(input.expectation.value) &&
                  WithinAny(input.expectation.value.allowedRoots, input.candidate.value.declaredPath) &&
                  !RunsEntrypoint(input.candidate.value, input.expectation.value))
  {
  }

  /** UNKNOWN, with its reason, once only the artifact is left to judge. */
  lemma {:induction false} UnknownAboutArtifact(input: Input)
    requires InPlace(input)
    ensures var d := Evaluate(input); var e := input.expectation.value; var failed := input.artifactError;
            && (failed.Some? && failed.value.ArtifactFailure? ==>
                  d == Decision(Unknown, ConfigBound, [failed.value.reason], []))
            && ((failed.Some? && !failed.value.ArtifactFailure?) || (failed.None? && input.artifact.None?) ==>
                  d == Decision(Unknown, ConfigBound, [ArtifactInaccessible], []))
            && (failed.None? && input.artifact.Some? ==> (
                  var c := input.candidate.value; var a := input.artifact.value;
                  && d.level == ArtifactObserved && |d.reasons| == 1
                  && (d.reasons == [PossibleStaleAfterReplacement] <==>
                        (Native(e) && c.fileIdentity.Some? && a.entrypointIdentity.Some? && !LoadedEntrypoint(c, a)) ||
                        ((Native(e) ==> LoadedEntrypoint(c, a) && e.value.fingerprints == []) &&
                         a.sha256 != e.value.sha256 && a.sha256 !in input.knownPriorDigests))
                  && (d.reasons == [PlatformEvidenceUnavailable] <==>
                        if Native(e) then
                          c.fileIdentity.None? || a.entrypointIdentity.None? ||
                          (LoadedEntrypoint(c, a) && e.value.fingerprints != [])
                        else a.sha256 == e.value.sha256)
                  && (d.reasons[0] in {PossibleStaleAfterReplacement, PlatformEvidenceUnavailable} <==>
                        d.verdict == Unknown)
                  && (d.verdict == Unknown ==>
                        d.limitations ==
                          (if Native(e) || a.sha256 != e.value.sha256 then []
                           else if e.value.trust == "untrusted" then [ExpectationUntrusted, DynamicDependenciesUnproven]
                           else [DynamicDependenciesUnproven]))))
  {
  }

  /** Without an expectation: UNKNOWN, with the codes of the failures there were, the host's first. */
  lemma {:induction false} MissingExpectation(input: Input)
    requires input.expectation.None?
    ensures var d := Evaluate(input); var host := input.hostError; var process := input.processError;
            && d.verdict == Unknown && d.level == ProcessObserved && d.limitations == [ExpectationMissing]
            && 1 <= |d.reasons| <= 3 && d.reasons[0] == ExpectationMissing
            && (|d.reasons| == 3 <==>
                  && host.Some? && host.value.HostFailure?
                  && host.value.code in {HostProcessNotRunning, HostProcessAmbiguous, HostCode.HostBindingAmbiguous,
                                         HostCode.HostConfigInvalid, HostCode.HostConfigInaccessible}
                  && process in {Some(ProcessFailure(NotFound)), Some(ProcessFailure(Inaccessible)),
                                 Some(ProcessFailure(IdentityChanged))})
            && (Reason.HostBindingAmbiguous in d.reasons <==>
                  host in {Some(HostFailure(HostProcessAmbiguous)), Some(HostFailure(HostCode.HostBindingAmbiguous))})
            && (Reason.HostConfigInvalid in d.reasons <==> host == Some(HostFailure(HostCode.HostConfigInvalid)))
            && (Reason.HostConfigInaccessible in d.reasons <==>
                  host == Some(HostFailure(HostCode.HostConfigInaccessible)))
            && (ProcessInaccessible in d.reasons <==> process == Some(ProcessFailure(Inaccessible)))
            && (ProcessIdentityChanged in d.reasons <==> process == Some(ProcessFailure(IdentityChanged)))
            && (ProcessNotFound in d.reasons <==>
                  host == Some(HostFailure(HostProcessNotRunning)) || process == Some(ProcessFailure(NotFound)))
            && (|d.reasons| == 3 ==> d.reasons[1] !in {ProcessInaccessible, ProcessIdentityChanged})
            && (|d.reasons| == 3 && d.reasons[1] == ProcessNotFound ==>
                  host == Some(HostFailure(HostProcessNotRunning)))
  {
  }

  /** An interpreter launch whose payload has a known prior digest is reported STALE. */
  lemma {:induction false} InterpreterCanBeStale(candidate: Candidate, expectation: Resolved,
                                                 artifact: ArtifactObservation)
    requires expectation.value.launchKind == "interpreter-script" && artifact.sha256 != expectation.value.sha256
    ensures Evaluate(Input(Some(candidate), Some(expectation), Some(artifact), None, None, None,
            {artifact.sha256})).verdict == Stale
  {
    StaleExactly(Input(Some(candidate), Some(expectation), Some(artifact), None, None, None, {artifact.sha256}));
  }

  /** A candidate that runs exactly the declared entrypoint of a resolved expectation is never reported LEAKED. */
  lemma {:induction false} EntrypointNeverLeaked(lib: Selection.Library, names: FileNames, input: Input)
    requires input.expectation.Some? && input.candidate.Some? && LawfulNames(names)
    requires var e := input.expectation.value;
             ValidSemantics(lib, e.value) && Acceptance(names, e.value, e) &&
             EquivalentPath(EntrypointPath(e.artifactRoot, e.value.entrypoint), input.candidate.value.declaredPath)
    ensures Evaluate(input).verdict != Leaked
  {
    var e := input.expectation.value;
    EntrypointStaysInside(lib, names, e.value, e, input.candidate.value.declaredPath);
    LeakedExactly(input);
  }
}
