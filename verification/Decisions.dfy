/** The decision vocabulary of contracts/decision-registry.json. */
module Decisions {
  datatype Reason =
    | MatchConfirmed | ProcessNotFound | ProcessIdentityChanged | ProcessInaccessible
    | ExpectationMissing | ExpectationInvalid | ExpectationUntrusted | ExpectationAmbiguous
    | ArtifactMismatch | ArtifactVersionMismatch | ArtifactChangedDuringRead | ArtifactScanLimitExceeded
    | ArtifactInaccessible | ArtifactPathEscape | ArtifactSymlinkRejected | ArtifactNormalizationCollision
    | ArtifactUnsupportedType | PossibleStaleAfterReplacement | StaleWitnessReceipt | RuntimeOutsideAllowedRoot
    | MultipleActiveDigests | HostBindingAmbiguous | HostConfigInaccessible | HostConfigInvalid
    | WitnessExpectationMissing | DynamicDependenciesUnproven | PlatformEvidenceUnavailable | ScanCancelled

  /** The codes a scan of files can end with (the `domainError` calls of internal/artifact). */
  type ScanReason = r: Reason | ScanCode(r) witness ScanCancelled

  predicate ScanCode(r: Reason) {
    r.ScanCancelled? || r.ArtifactScanLimitExceeded? || r.ArtifactInaccessible? || r.ArtifactUnsupportedType? ||
    r.ArtifactPathEscape? || r.ArtifactSymlinkRejected? || r.ArtifactNormalizationCollision? ||
    r.ArtifactChangedDuringRead?
  }

  /** And the one for an expectation that selects nothing. */
  type DigestReason = r: Reason | ScanCode(r) || r.ExpectationInvalid? witness ExpectationInvalid

  datatype Verdict = Matched | Stale | Leaked | Conflict | NotRunning | Unknown

  datatype Level = ProcessObserved | ConfigBound | ArtifactObserved | LaunchWitnessed

  /** The `order` of a proof level. */
  function Order(level: Level): nat {
    match level
    case ProcessObserved => 1
    case ConfigBound => 2
    case ArtifactObserved => 3
    case LaunchWitnessed => 4
  }

  function AllowedVerdicts(reason: Reason): set<Verdict> {
    match reason
    case MatchConfirmed => {Matched}
    case ProcessNotFound => {NotRunning, Unknown}
    case ExpectationUntrusted => {Matched, Unknown}
    case ExpectationAmbiguous => {Conflict, Unknown}
    case ArtifactMismatch => {Stale, Conflict}
    case ArtifactVersionMismatch => {Stale, Conflict}
    case ArtifactPathEscape => {Leaked, Unknown}
    case ArtifactNormalizationCollision => {Unknown, Conflict}
    case StaleWitnessReceipt => {Stale}
    case RuntimeOutsideAllowedRoot => {Leaked}
    case MultipleActiveDigests => {Conflict}
    case HostBindingAmbiguous => {Conflict, Unknown}
    case DynamicDependenciesUnproven => {Matched, Unknown}
    case _ => {Unknown}
  }

  /** The default minimum is PROCESS_OBSERVED; the others are the registry's overrides. */
  function MinimumLevel(reason: Reason): Level {
    match reason
    case ArtifactMismatch => ArtifactObserved
    case ArtifactVersionMismatch => ArtifactObserved
    case ArtifactChangedDuringRead => ConfigBound
    case ArtifactScanLimitExceeded => ConfigBound
    case ArtifactInaccessible => ConfigBound
    case ArtifactPathEscape => ConfigBound
    case ArtifactSymlinkRejected => ConfigBound
    case ArtifactNormalizationCollision => ConfigBound
    case ArtifactUnsupportedType => ConfigBound
    case PossibleStaleAfterReplacement => ConfigBound
    case StaleWitnessReceipt => LaunchWitnessed
    case RuntimeOutsideAllowedRoot => ConfigBound
    case MultipleActiveDigests => ArtifactObserved
    case WitnessExpectationMissing => LaunchWitnessed
    case DynamicDependenciesUnproven => ArtifactObserved
    case _ => ProcessObserved
  }
}
