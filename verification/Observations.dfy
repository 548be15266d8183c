/** Observed processes and the errors that travel between the components (internal/model/model.go). */
module Observations {
  import opened Basics
  import opened Decisions
  import opened Kernel

  datatype ProcessIdentity = ProcessIdentity(pid: int, createdAt: string, bootIdHash: string)

  datatype Fingerprint = Fingerprint(position: nat, sha256: string)

  /** An empty file identity in the program is None here. */
  datatype Candidate = Candidate(process: ProcessIdentity, pathHash: string, fileIdHash: string,
                                 executablePath: string, declaredPath: string, fileIdentity: Option<Id>,
                                 arguments: seq<Fingerprint>)

  datatype ErrorKind = NotFound | Inaccessible | IdentityChanged | Internal

  datatype HostCode =
    | HostProcessNotRunning | HostProcessAmbiguous | HostBindingAmbiguous | HostConfigInvalid | HostConfigInaccessible
    | HostBindingNotFound | HostProfileNotFound | HostProfileInvalid | HostProfileUnsupported | HostDiscoveryCancelled

  /** What `errors.As` can find in an error. */
  datatype Failure =
    | HostFailure(code: HostCode)
    | ProcessFailure(kind: ErrorKind)
    | ArtifactFailure(reason: Reason)
    | OtherFailure
}
