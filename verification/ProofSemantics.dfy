/** `validateProofSemantics` of internal/contract/validator.go, and how it agrees with the evaluator. */
module ProofSemantics {
  import opened ArtifactIdentity
  import opened Basics
  import opened Decisions
  import opened Evaluator
  import opened Expectations
  import opened Observations

  /** The parts of a proof the semantic rules read. */
  datatype Claims = Claims(hasExpectation: bool, hasProcess: bool, hasExecutable: bool, hasArtifact: bool,
                           decision: Decision)

  /** What `Project` and `Build` make of an evaluation. */
  function ClaimsOf(input: Input): Claims {
    Claims(input.expectation.Some?, input.candidate.Some?, input.candidate.Some?, input.artifact.Some?, Evaluate(input))
  }

  predicate Permitted(reason: Reason, verdict: Verdict, level: Level) {
    verdict in AllowedVerdicts(reason) && Order(level) >= Order(MinimumLevel(reason))
  }

  /** The registry read the other way round: which codes may stand beside a verdict. */
  predicate Explains(reason: Reason, verdict: Verdict) {
    match verdict
    case Matched => reason in {MatchConfirmed, ExpectationUntrusted, DynamicDependenciesUnproven}
    case Stale => reason in {ArtifactMismatch, ArtifactVersionMismatch, StaleWitnessReceipt}
    case Leaked => reason in {ArtifactPathEscape, RuntimeOutsideAllowedRoot}
    case Conflict => reason in {ExpectationAmbiguous, ArtifactMismatch, ArtifactVersionMismatch,
                                ArtifactNormalizationCollision, MultipleActiveDigests, Reason.HostBindingAmbiguous}
    case NotRunning => reason == ProcessNotFound
    case Unknown => reason !in {MatchConfirmed, ArtifactMismatch, ArtifactVersionMismatch, StaleWitnessReceipt,
                                RuntimeOutsideAllowedRoot, MultipleActiveDigests}
  }

  /** And which observations a code presupposes: the artifact's, a witnessed launch, or a bound configuration. */
  predicate Backed(reason: Reason, level: Level) {
    match level
    case ProcessObserved =>
      reason in {MatchConfirmed, ProcessNotFound, ProcessIdentityChanged, ProcessInaccessible, ExpectationMissing,
                 ExpectationInvalid, ExpectationUntrusted, ExpectationAmbiguous, Reason.HostBindingAmbiguous,
                 Reason.HostConfigInaccessible, Reason.HostConfigInvalid, PlatformEvidenceUnavailable, ScanCancelled}
    case ConfigBound =>
      reason !in {ArtifactMismatch, ArtifactVersionMismatch, MultipleActiveDigests, DynamicDependenciesUnproven,
                  StaleWitnessReceipt, WitnessExpectationMissing}
    case ArtifactObserved => reason !in {StaleWitnessReceipt, WitnessExpectationMissing}
    case LaunchWitnessed => true
  }

  lemma {:induction false} PermittedExactly(reason: Reason, verdict: Verdict, level: Level)
    ensures Permitted(reason, verdict, level) <==> Explains(reason, verdict) && Backed(reason, level)
  {
    hide AllowedVerdicts, MinimumLevel, Order, Explains, Backed;
    ExplainsExactly(reason, verdict);
    BackedExactly(reason, level);
  }

  lemma ExplainsExactly(reason: Reason, verdict: Verdict)
    ensures verdict in AllowedVerdicts(reason) <==> Explains(reason, verdict)
  {
  }

  lemma BackedExactly(reason: Reason, level: Level)
    ensures Order(level) >= Order(MinimumLevel(reason)) <==> Backed(reason, level)
  {
  }

  /** The rules, one by one. */
  ghost predicate Consistent(p: Claims) {
    var d := p.decision;
    && (!p.hasExpectation ==> d.verdict == Unknown && ExpectationMissing in d.reasons)
    && (d.verdict in {Matched, Stale, Leaked} ==> p.hasProcess && p.hasExecutable)
    && (d.verdict == Matched ==> p.hasArtifact)
    && (d.verdict == NotRunning ==> !p.hasProcess && !p.hasExecutable && !p.hasArtifact)
    && (forall r | r in d.reasons :: Permitted(r, d.verdict, d.level))
    && (forall r | r in d.limitations :: Permitted(r, d.verdict, d.level))
  }

  method ValidateProofSemantics(p: Claims) returns (ok: bool)
    ensures ok <==> Consistent(p)
  {
    var d := p.decision;
    if !p.hasExpectation && (d.verdict != Unknown || ExpectationMissing !in d.reasons) {
      return false;
    }
    if (d.verdict == Matched || d.verdict == Stale || d.verdict == Leaked) && (!p.hasProcess || !p.hasExecutable) {
      return false;
    }
    if d.verdict == Matched && !p.hasArtifact {
      return false;
    }
    if d.verdict == NotRunning && (p.hasProcess || p.hasExecutable || p.hasArtifact) {
      return false;
    }
    var codes := d.reasons + d.limitations;
    var i := 0;
    while i < |codes|
      invariant 0 <= i <= |codes|
      invariant forall j | 0 <= j < i :: Permitted(codes[j], d.verdict, d.level)
    {
      if d.verdict !in AllowedVerdicts(codes[i]) {
        assert codes[i] in d.reasons || codes[i] in d.limitations;
        return false;
      }
      if Order(d.level) < Order(MinimumLevel(codes[i])) {
        assert codes[i] in d.reasons || codes[i] in d.limitations;
        return false;
      }
      i := i + 1;
    }
    assert forall r | r in d.reasons :: r in codes;
    assert forall r | r in d.limitations :: r in codes;
    ok := true;
  }

  // ----- The evaluator on any input ---------------------------------------------------------------

  predicate IsHost(error: Option<Failure>, code: HostCode) {
    error == Some(HostFailure(code))
  }

  /** A known expectation, and the first failure says the process does not exist. */
  predicate SaysNotRunning(input: Input) {
    input.expectation.Some? &&
    if input.hostError.Some? then IsHost(input.hostError, HostProcessNotRunning)
    else input.processError == Some(ProcessFailure(NotFound))
  }

  /** The artifact failure is what the verdict will be about. */
  predicate SaysArtifactFailed(input: Input) {
    && input.expectation.Some? && input.hostError.None? && input.processError.None? && input.candidate.Some?
    && EvaluatePaths(input.candidate.value, input.expectation.value).None? && input.artifactError.Some?
  }

  /** The registry's codes that an artifact failure must not carry; no scan ends with one of them. */
  predicate ForeignToScans(reason: Reason) {
    reason.MatchConfirmed? || reason.ArtifactMismatch? || reason.ArtifactVersionMismatch? ||
    reason.StaleWitnessReceipt? || reason.RuntimeOutsideAllowedRoot? || reason.MultipleActiveDigests? ||
    reason.WitnessExpectationMissing? || reason.DynamicDependenciesUnproven?
  }

  /** No observation beside a missing process, and no artifact failure with a code foreign to scans. */
  predicate Presentable(input: Input) {
    && (SaysNotRunning(input) ==> input.candidate.None? && input.artifact.None?)
    && (SaysArtifactFailed(input) && input.artifactError.value.ArtifactFailure? ==>
          !ForeignToScans(input.artifactError.value.reason))
  }

  /** These are the codes the registry bars from UNKNOWN, or from a proof that is merely bound to the configuration. */
  lemma {:induction false} ForeignMeansBarred(reason: Reason)
    ensures ForeignToScans(reason) <==> !Permitted(reason, Unknown, ConfigBound)
    ensures ScanCode(reason) || reason.ExpectationInvalid? ==> !ForeignToScans(reason)
  {
  }

  /** For a decision with one reason and no limitation the rules come down to this. */
  predicate ConsistentDecide(verdict: Verdict, level: Level, reason: Reason, process: bool, artifact: bool) {
    && Permitted(reason, verdict, level)
    && (verdict in {Matched, Stale, Leaked} ==> process) && (verdict == Matched ==> artifact)
    && (verdict == NotRunning ==> !process && !artifact)
  }

  lemma OneReason(verdict: Verdict, level: Level, reason: Reason, process: bool, artifact: bool)
    ensures Consistent(Claims(true, process, process, artifact, Decide(verdict, level, reason))) <==>
            ConsistentDecide(verdict, level, reason, process, artifact)
  {
    assert [reason][0] in [reason];
  }

  lemma {:induction false} HostErrorAgrees(error: Failure, process: bool, artifact: bool)
    ensures Consistent(Claims(true, process, process, artifact, EvaluateHostError(error))) <==>
            (error == HostFailure(HostProcessNotRunning) ==> !process && !artifact)
  {
    hide Consistent;
    var d := EvaluateHostError(error);
    OneReason(d.verdict, d.level, d.reasons[0], process, artifact);
  }

  lemma {:induction false} ProcessErrorAgrees(error: Failure, process: bool, artifact: bool)
    ensures Consistent(Claims(true, process, process, artifact, EvaluateProcessError(error))) <==>
            (error == ProcessFailure(NotFound) ==> !process && !artifact)
  {
    hide Consistent;
    var d := EvaluateProcessError(error);
    OneReason(d.verdict, d.level, d.reasons[0], process, artifact);
  }

  lemma {:induction false} PathsAgree(candidate: Candidate, expectation: Resolved, artifact: bool)
    requires EvaluatePaths(candidate, expectation).Some?
    ensures Consistent(Claims(true, true, true, artifact, EvaluatePaths(candidate, expectation).value))
  {
    hide Consistent, WithinAny, EquivalentPath;
    var d := EvaluatePaths(candidate, expectation).value;
    OneReason(d.verdict, d.level, d.reasons[0], true, artifact);
  }

  lemma {:induction false} IdentityAgrees(candidate: Candidate, expectation: Resolved, artifact: ArtifactObservation)
    requires EvaluateIdentity(candidate, expectation, artifact).Some?
    ensures Consistent(Claims(true, true, true, true, EvaluateIdentity(candidate, expectation, artifact).value))
  {
    hide Consistent;
    var d := EvaluateIdentity(candidate, expectation, artifact).value;
    OneReason(d.verdict, d.level, d.reasons[0], true, true);
  }

  lemma {:induction false} DigestAgrees(artifact: ArtifactObservation, expectation: Resolved, known: set<string>)
    ensures Consistent(Claims(true, true, true, true, EvaluateDigest(artifact, expectation, known)))
  {
  }

  lemma {:induction false} ArtifactAgrees(input: Input, candidate: Candidate, expectation: Resolved)
    ensures Consistent(Claims(true, true, true, input.artifact.Some?,
            EvaluateArtifact(input, candidate, expectation))) <==>
            (input.artifactError.Some? && input.artifactError.value.ArtifactFailure? ==>
               !ForeignToScans(input.artifactError.value.reason))
  {
    hide Consistent, EvaluateIdentity, EvaluateDigest;
    var d := EvaluateArtifact(input, candidate, expectation);
    if input.artifactError.Some? || input.artifact.None? {
      ForeignMeansBarred(d.reasons[0]);
      OneReason(d.verdict, d.level, d.reasons[0], true, input.artifact.Some?);
    } else if EvaluateIdentity(candidate, expectation, input.artifact.value).Some? {
      IdentityAgrees(candidate, expectation, input.artifact.value);
    } else {
      DigestAgrees(input.artifact.value, expectation, input.knownPriorDigests);
    }
  }

  /** The evaluator's decision passes the validator exactly on presentable inputs. */
  lemma {:induction false} EvaluatorAgreesExactly(input: Input)
    ensures Consistent(ClaimsOf(input)) <==> Presentable(input)
  {
    hide Consistent, EvaluateHostError, EvaluateProcessError, EvaluatePaths, EvaluateArtifact;
    if input.expectation.None? {
      NoExpectation(input);
    } else if input.hostError.Some? {
      HostErrorAgrees(input.hostError.value, input.candidate.Some?, input.artifact.Some?);
    } else if input.processError.Some? {
      ProcessErrorAgrees(input.processError.value, input.candidate.Some?, input.artifact.Some?);
    } else if input.candidate.None? {
      OneReason(Unknown, ConfigBound, ProcessInaccessible, false, input.artifact.Some?);
    } else if EvaluatePaths(input.candidate.value, input.expectation.value).Some? {
      PathsAgree(input.candidate.value, input.expectation.value, input.artifact.Some?);
    } else {
      ArtifactAgrees(input, input.candidate.value, input.expectation.value);
    }
  }

  /** A candidate handed over beside the report that no process exists. */
  lemma {:induction false} CandidateBesideNotFound(c: Candidate, e: Resolved)
    ensures !Consistent(ClaimsOf(Input(Some(c), Some(e), None, Some(ProcessFailure(NotFound)), None, None, {})))
  {
    EvaluatorAgreesExactly(Input(Some(c), Some(e), None, Some(ProcessFailure(NotFound)), None, None, {}));
  }

  /** An artifact failure that claims a mismatch. */
  lemma {:induction false} MismatchAsFailure(c: Candidate, e: Resolved)
    requires EvaluatePaths(c, e).None?
    ensures !Consistent(ClaimsOf(Input(Some(c), Some(e), None, None, Some(ArtifactFailure(ArtifactMismatch)), None,
            {})))
  {
    EvaluatorAgreesExactly(Input(Some(c), Some(e), None, None, Some(ArtifactFailure(ArtifactMismatch)), None, {}));
  }

  lemma {:induction false} NoExpectation(input: Input)
    requires input.expectation.None?
    ensures Consistent(ClaimsOf(input))
  {
    var d := Evaluate(input);
    assert d.reasons[0] == ExpectationMissing;
    forall r | r in d.reasons ensures Permitted(r, Unknown, ProcessObserved) {
    }
  }

  predicate NoRepeats(codes: seq<Reason>) {
    forall i, j | 0 <= i < j < |codes| :: codes[i] != codes[j]
  }

  /** Only without an expectation, and only when host and process both report a missing process, is a code repeated. */
  lemma {:induction false} RepeatsExactly(input: Input)
    ensures NoRepeats(Evaluate(input).limitations)
    ensures NoRepeats(Evaluate(input).reasons) <==>
              !(input.expectation.None? && IsHost(input.hostError, HostProcessNotRunning) &&
                input.processError == Some(ProcessFailure(NotFound)))
  {
    if input.expectation.None? {
      var d := Evaluate(input);
      if IsHost(input.hostError, HostProcessNotRunning) && input.processError == Some(ProcessFailure(NotFound)) {
        assert d.reasons[1] == d.reasons[2];
      }
    } else {
      SingleReason(input);
    }
  }

  lemma {:induction false} SingleReason(input: Input)
    requires input.expectation.Some?
    ensures |Evaluate(input).reasons| == 1 && NoRepeats(Evaluate(input).limitations)
  {
    hide WithinAny, EquivalentPath;
  }

  /** An input on which the code is repeated. */
  lemma RepeatedCode()
    ensures !NoRepeats(Evaluate(Input(None, None, None, Some(ProcessFailure(NotFound)), None,
                                      Some(HostFailure(HostProcessNotRunning)), {})).reasons)
  {
    RepeatsExactly(Input(None, None, None, Some(ProcessFailure(NotFound)), None,
      Some(HostFailure(HostProcessNotRunning)), {}));
  }
}
