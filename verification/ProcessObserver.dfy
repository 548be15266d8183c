/** Observing processes that start, exec and exit meanwhile (internal/process). */
module ProcessObserver {
  import opened Basics
  import opened Integers
  import opened Kernel
  import opened Observations

  /** The boot hash and the user, each read once, and the domain-separated hashes of paths and file identities. */
  datatype Naming = Naming(boot: string, user: int, pathHash: string -> string, fileIdHash: Id -> string)

  /** Equal file hashes come from equal identities, and no hash is empty. */
  ghost predicate LawfulNaming(naming: Naming) {
    (forall a, b | naming.fileIdHash(a) == naming.fileIdHash(b) :: a == b) && forall a :: naming.fileIdHash(a) != ""
  }

  const DELETED_SUFFIX := " (deleted)"

  /** The kernel marks the link of a deleted image. */
  function TrimDeleted(link: string): string {
    if |link| >= |DELETED_SUFFIX| && link[|link| - |DELETED_SUFFIX|..] == DELETED_SUFFIX then
      link[..|link| - |DELETED_SUFFIX|]
    else link
  }

  /** Exactly that mark is taken off, once. */
  lemma {:induction false} TrimDeletedExactly(link: string, path: string)
    ensures TrimDeleted(path + " (deleted)") == path
    ensures TrimDeleted(link) == path <==>
              link == path + " (deleted)" || (link == path && forall other: string :: link != other + " (deleted)")
  {
    if |link| >= |DELETED_SUFFIX| {
      var n := |link| - |DELETED_SUFFIX|;
      assert link == link[..n] + link[n..];
    }
    forall other: string | link == other + DELETED_SUFFIX ensures TrimDeleted(link) == other {
      assert link[|link| - |DELETED_SUFFIX|..] == DELETED_SUFFIX;
    }
    assert (path + DELETED_SUFFIX)[|path|..] == DELETED_SUFFIX;
  }

  /** The three readings a candidate is put together from, each at an instant of its own. */
  ghost predicate SightedAt(run: nat -> Processes, naming: Naming, c: Candidate, born: nat, linked: nat, loaded: nat) {
    var pid := c.process.pid;
    && pid > 0 && born <= linked <= loaded
    && c.process.bootIdHash == naming.boot && Born(run, born, pid, c.process.createdAt)
    && pid in run(linked) && c.declaredPath == TrimDeleted(run(linked)[pid].imagePath)
    && c.pathHash == naming.pathHash(c.declaredPath) && c.executablePath == "/proc/" + FormatInt(pid) + "/exe"
    && pid in run(loaded) && c.fileIdentity == Some(run(loaded)[pid].image) &&
       c.fileIdHash == naming.fileIdHash(run(loaded)[pid].image)
  }

  ghost predicate Sighted(run: nat -> Processes, naming: Naming, c: Candidate, first: nat, last: nat) {
    exists born: nat, linked: nat, loaded: nat ::
        first <= born && loaded <= last && SightedAt(run, naming, c, born, linked, loaded)
  }

  /** Absent at some instant. */
  ghost predicate Absent(run: nat -> Processes, pid: int, first: nat, last: nat) {
    exists t: nat :: first <= t <= last && pid !in run(t)
  }

  /** Another user's at some instant. */
  ghost predicate Foreign(run: nat -> Processes, naming: Naming, pid: int, first: nat, last: nat) {
    exists t: nat :: first <= t <= last && pid in run(t) && run(t)[pid].owner != naming.user
  }

  /** `classifyPortableError`, for a process that is there and cannot be read. */
  method Unreadable(w: World) returns (r: Failure)
    modifies w`faults
    ensures w.faults > old(w.faults) && (r == ProcessFailure(Inaccessible) || r == ProcessFailure(Internal))
  {
    w.faults := w.faults + 1;
    if * {
      r := ProcessFailure(Inaccessible);
    } else {
      r := ProcessFailure(Internal);
    }
  }

  /** For one that is gone: not every way to find out is a file that does not exist. */
  method Gone() returns (r: Failure)
    ensures r == ProcessFailure(NotFound) || r == ProcessFailure(Internal)
  {
    if * {
      r := ProcessFailure(NotFound);
    } else {
      r := ProcessFailure(Internal);
    }
  }

  /** One look at the process table. */
  method Look(w: World, pid: int) returns (r: Result<Process, Failure>)
    modifies w`now, w`faults
    ensures w.now >= old(w.now) && w.faults >= old(w.faults)
    ensures r.Ok? ==> pid in w.processes(w.now) && w.processes(w.now)[pid] == r.value
    ensures r.Err? ==> r.error.ProcessFailure? && !r.error.kind.IdentityChanged?
    ensures r.Err? && (r.error.kind.NotFound? || w.faults == old(w.faults)) ==> pid !in w.processes(w.now)
  {
    w.Elapse();
    if * {
      var failure := Unreadable(w);
      return Err(failure);
    }
    if pid !in w.processes(w.now) {
      var failure := Gone();
      return Err(failure);
    }
    r := Ok(w.processes(w.now)[pid]);
  }

  /** `Snapshot` on Linux.  It fails only if the process is missing at some instant, or cannot be read. */
  method Snapshot(w: World, naming: Naming, pid: int) returns (r: Result<Candidate, Failure>)
    modifies w`now, w`faults
    ensures w.now >= old(w.now) && w.faults >= old(w.faults)
    ensures r.Ok? ==> r.value.process.pid == pid && Sighted(w.processes, naming, r.value, old(w.now), w.now)
    ensures r.Err? ==> r.error.ProcessFailure? && !r.error.kind.IdentityChanged?
    ensures pid <= 0 ==> r == Err(ProcessFailure(NotFound))
    ensures r.Err? && (r.error.kind.NotFound? || w.faults == old(w.faults)) ==>
              pid <= 0 || Absent(w.processes, pid, old(w.now), w.now)
  {
    if pid <= 0 {
      return Err(ProcessFailure(NotFound));
    }
    var identity := Look(w, pid);
    ghost var born := w.now;
    if identity.Err? {
      return Err(identity.error);
    }
    var link := Look(w, pid);
    ghost var linked := w.now;
    if link.Err? {
      return Err(link.error);
    }
    var path := TrimDeleted(link.value.imagePath);
    var info := Look(w, pid);
    ghost var loaded := w.now;
    if info.Err? {
      return Err(info.error);
    }
    var image := info.value.image;
    w.Elapse();
    var arguments: seq<Fingerprint> := *;
    var candidate := Candidate(ProcessIdentity(pid, identity.value.birth, naming.boot), naming.pathHash(path),
                               naming.fileIdHash(image), "/proc/" + FormatInt(pid) + "/exe", path, Some(image),
                               arguments);
    assert SightedAt(w.processes, naming, candidate, born, linked, loaded);
    r := Ok(candidate);
  }

  /** `SameIdentity`. */
  predicate SameIdentity(left: Candidate, right: Candidate) {
    left.process == right.process &&
    if left.fileIdHash != "" || right.fileIdHash != "" then left.fileIdHash == right.fileIdHash
    else left.pathHash == right.pathHash
  }

  /** The same process under the same boot, running the same file; only if no file is known, the same path. */
  lemma SameIdentityExactly(left: Candidate, right: Candidate)
    ensures SameIdentity(left, right) <==>
              && left.process.pid == right.process.pid && left.process.createdAt == right.process.createdAt
              && left.process.bootIdHash == right.process.bootIdHash && left.fileIdHash == right.fileIdHash
              && (left.fileIdHash == "" ==> left.pathHash == right.pathHash)
  {
  }

  /** The candidate describes what the table holds. */
  ghost predicate TrueTo(c: Candidate, table: Processes, naming: Naming) {
    && c.process.pid in table
    && var process := table[c.process.pid];
    && c.process == ProcessIdentity(c.process.pid, process.birth, naming.boot)
    && c.declaredPath == TrimDeleted(process.imagePath) && c.fileIdentity == Some(process.image)
  }

  lemma {:induction false} SightedTrue(run: nat -> Processes, naming: Naming, c: Candidate, first: nat, last: nat)
    requires Sighted(run, naming, c, first, last) && Still(run, first, last)
    ensures TrueTo(c, run(first), naming)
  {
    var born: nat, linked: nat, loaded: nat :| first <= born && loaded <= last &&
      SightedAt(run, naming, c, born, linked, loaded);
    assert run(born) == run(linked) == run(loaded) == run(first);
  }

  /** At a second look the process is missing, or another. */
  ghost predicate Lost(run: nat -> Processes, naming: Naming, c: Candidate, first: nat, last: nat) {
    || c.process.pid <= 0 || Absent(run, c.process.pid, first, last)
    || exists actual: Candidate :: actual.process.pid == c.process.pid && Sighted(run, naming, actual, first, last) &&
                        !SameIdentity(c, actual)
  }

  /** Nothing is lost while the process table stands still. */
  lemma {:induction false} NotLost(run: nat -> Processes, naming: Naming, c: Candidate, first: nat, middle: nat,
                                   since: nat, last: nat)
    requires Still(run, first, last) && middle <= since && Sighted(run, naming, c, first, middle)
    ensures !Lost(run, naming, c, since, last)
  {
    var born: nat, linked: nat, loaded: nat :| first <= born && loaded <= middle &&
      SightedAt(run, naming, c, born, linked, loaded);
    if since <= last {
      assert run(born) == run(first) == run(linked) == run(loaded);
      forall actual: Candidate | actual.process.pid == c.process.pid && Sighted(run, naming, actual, since, last)
        ensures SameIdentity(c, actual)
      {
        var reborn: nat, relinked: nat, reloaded: nat :| since <= reborn && reloaded <= last &&
          SightedAt(run, naming, actual, reborn, relinked, reloaded);
        assert run(reborn) == run(first) == run(relinked) == run(reloaded);
      }
    }
  }

  /** `Revalidate`: a second snapshot of the PID must have the same identity. */
  method Revalidate(w: World, naming: Naming, expected: Candidate) returns (r: Option<Failure>)
    modifies w`now, w`faults
    ensures w.now >= old(w.now) && w.faults >= old(w.faults)
    ensures r.None? ==> exists actual ::
              Sighted(w.processes, naming, actual, old(w.now), w.now) && SameIdentity(expected, actual)
    ensures r.Some? ==> r.value.ProcessFailure?
    ensures r.Some? && (r.value.kind.NotFound? || r.value.kind.IdentityChanged? || w.faults == old(w.faults)) ==>
              Lost(w.processes, naming, expected, old(w.now), w.now)
    ensures r == Some(ProcessFailure(NotFound)) && expected.process.pid > 0 ==>
              Absent(w.processes, expected.process.pid, old(w.now), w.now)
  {
    hide Sighted, Absent;
    var actual := Snapshot(w, naming, expected.process.pid);
    if actual.Err? {
      return Some(actual.error);
    }
    if !SameIdentity(expected, actual.value) {
      return Some(ProcessFailure(IdentityChanged));
    }
    r := None;
  }

  ghost predicate AscendingPids(candidates: seq<Candidate>) {
    forall i, j | 0 <= i < j < |candidates| :: candidates[i].process.pid < candidates[j].process.pid
  }

  /** Each PID is accounted for: taken, skipped, or beyond the limit. */
  ghost predicate Inventory(pids: set<int>, skipped: set<int>, candidates: seq<Candidate>, limit: nat) {
    forall pid | pid in pids ::
      || pid in skipped || Listed(candidates, pid)
      || (|candidates| == limit && forall c | c in candidates :: c.process.pid < pid)
  }

  ghost predicate Listed(candidates: seq<Candidate>, pid: int) {
    exists c | c in candidates :: c.process.pid == pid
  }

  /** What `List` may leave out: it is gone, or not the user's. */
  ghost predicate Skippable(run: nat -> Processes, naming: Naming, pid: int, first: nat, last: nat) {
    pid <= 0 || Absent(run, pid, first, last) || Foreign(run, naming, pid, first, last)
  }

  lemma SkippableLater(run: nat -> Processes, naming: Naming, pids: set<int>, first: nat, last: nat, later: nat)
    requires last <= later && forall pid | pid in pids :: Skippable(run, naming, pid, first, last)
    ensures forall pid | pid in pids :: Skippable(run, naming, pid, first, later)
  {
    forall pid | pid in pids ensures Skippable(run, naming, pid, first, later) {
      assert Skippable(run, naming, pid, first, last);
    }
  }

  /** Somebody of the user had this PID at some instant of the call. */
  ghost predicate Owned(run: nat -> Processes, naming: Naming, pid: int, first: nat, last: nat) {
    exists t: nat :: first <= t <= last && pid in run(t) && run(t)[pid].owner == naming.user
  }

  ghost predicate AllOwned(run: nat -> Processes, naming: Naming, candidates: seq<Candidate>, first: nat, last: nat) {
    forall c | c in candidates :: Owned(run, naming, c.process.pid, first, last)
  }

  lemma OwnedLater(run: nat -> Processes, naming: Naming, candidates: seq<Candidate>, sooner: nat, first: nat,
                   last: nat, later: nat)
    requires sooner <= first && last <= later && AllOwned(run, naming, candidates, first, last)
    ensures AllOwned(run, naming, candidates, sooner, later)
  {
    forall c | c in candidates ensures Owned(run, naming, c.process.pid, sooner, later) {
      assert Owned(run, naming, c.process.pid, first, last);
    }
  }

  /** Every process of the user is listed, up to the limit. */
  ghost predicate EveryOwn(table: Processes, naming: Naming, candidates: seq<Candidate>, limit: nat) {
    forall pid | pid in table && pid > 0 && table[pid].owner == naming.user ::
      Listed(candidates, pid) || (|candidates| == limit && forall c | c in candidates :: c.process.pid < pid)
  }

  lemma {:induction false} QuietInventory(run: nat -> Processes, naming: Naming, first: nat, listedAt: nat, last: nat,
                                          skipped: set<int>, candidates: seq<Candidate>, limit: nat)
    requires Still(run, first, last) && first <= listedAt <= last
    requires Inventory(run(listedAt).Keys, skipped, candidates, limit)
    requires forall pid | pid in skipped :: Skippable(run, naming, pid, first, last)
    ensures EveryOwn(run(first), naming, candidates, limit)
  {
    assert run(listedAt) == run(first);
    forall pid | pid in skipped ensures !(pid in run(first) && pid > 0 && run(first)[pid].owner == naming.user) {
      assert Skippable(run, naming, pid, first, last);
    }
  }

  /** The first lines of the loop: whether the process can be looked up and belongs to the user. */
  method Mine(w: World, naming: Naming, pid: int) returns (r: bool)
    modifies w`now, w`faults
    ensures w.now >= old(w.now) && w.faults >= old(w.faults)
    ensures !r ==> w.faults > old(w.faults) || Skippable(w.processes, naming, pid, old(w.now), w.now)
    ensures r ==> Owned(w.processes, naming, pid, old(w.now), w.now)
  {
    var seen := Look(w, pid);
    if seen.Err? {
      return false;
    }
    r := seen.value.owner == naming.user;
  }

  /**
    `List`: by ascending PID, each snapshot on its own, up to a limit.  Skipped are other
    users' processes, those that are gone, and those that cannot be read.
   */
  method List(w: World, naming: Naming, limit: nat)
    returns (r: Result<seq<Candidate>, Failure>, ghost listedAt: nat, ghost skipped: set<int>)
    requires limit > 0
    modifies w`now, w`faults
    ensures old(w.now) <= listedAt <= w.now && w.faults >= old(w.faults)
    ensures r.Ok? ==> |r.value| <= limit &&
                      forall c | c in r.value :: Sighted(w.processes, naming, c, old(w.now), w.now)
    ensures r.Ok? ==> AllOwned(w.processes, naming, r.value, old(w.now), w.now)
    ensures r.Ok? ==> AscendingPids(r.value) && Inventory(w.processes(listedAt).Keys, skipped, r.value, limit)
    ensures w.faults == old(w.faults) ==>
              forall pid | pid in skipped :: Skippable(w.processes, naming, pid, old(w.now), w.now)
    ensures r.Err? ==> r.error in {ProcessFailure(Inaccessible), ProcessFailure(Internal)}
    ensures r.Err? && w.faults == old(w.faults) ==>
              exists pid :: pid in w.processes(listedAt) && Absent(w.processes, pid, old(w.now), w.now)
    ensures w.faults == old(w.faults) && Still(w.processes, old(w.now), w.now) ==>
              r.Ok? && EveryOwn(w.processes(old(w.now)), naming, r.value, limit)
  {
    hide Sighted, Absent, Skippable, Owned;
    listedAt, skipped := w.now, {};
    w.Elapse();
    if * {
      var failure := Unreadable(w);
      return Err(failure), listedAt, skipped;
    }
    listedAt := w.now;
    ghost var all := w.processes(w.now).Keys;
    var pids := w.processes(w.now).Keys;
    var result: seq<Candidate> := [];
    while pids != {} && |result| < limit
      invariant old(w.now) <= listedAt <= w.now && w.faults >= old(w.faults) && |result| <= limit && pids <= all
      invariant forall c | c in result :: Sighted(w.processes, naming, c, old(w.now), w.now)
      invariant AllOwned(w.processes, naming, result, old(w.now), w.now)
      invariant AscendingPids(result) && forall c, pid | c in result && pid in pids :: c.process.pid < pid
      invariant forall pid | pid in all :: pid in pids || pid in skipped || Listed(result, pid)
      invariant w.faults == old(w.faults) ==>
                  forall pid | pid in skipped :: Skippable(w.processes, naming, pid, old(w.now), w.now)
      decreases pids
    {
      if * {
        w.faults := w.faults + 1;
        return Err(ProcessFailure(Internal)), listedAt, skipped;
      }
      ghost var before := w.now;
      LeastOf(pids);
      var pid :| Least(pids, pid);
      pids := pids - {pid};
      var candidate := OneOf(w, naming, pid, old(w.now));
      StillSighted(w.processes, naming, result, old(w.now), before, w.now);
      OwnedLater(w.processes, naming, result, old(w.now), old(w.now), before, w.now);
      if w.faults == old(w.faults) {
        SkippableLater(w.processes, naming, skipped, old(w.now), before, w.now);
      }
      match candidate {
        case Taken(c) =>
          ListedMore(result, c);
          result := result + [c];
        case Skipped =>
          skipped := skipped + {pid};
        case Broken(error) =>
          NoneAbsent(w.processes, pid, old(w.now), listedAt, w.now);
          return Err(error), listedAt, skipped;
      }
    }
    if w.faults == old(w.faults) && Still(w.processes, old(w.now), w.now) {
      QuietInventory(w.processes, naming, old(w.now), listedAt, w.now, skipped, result, limit);
    }
    r := Ok(result);
  }

  lemma NoneAbsent(run: nat -> Processes, pid: int, first: nat, listedAt: nat, last: nat)
    requires first <= listedAt <= last && pid in run(listedAt)
    ensures Still(run, first, last) ==> !Absent(run, pid, first, last)
  {
  }

  datatype Turn = Taken(c: Candidate) | Skipped | Broken(error: Failure)

  /** One turn of the loop. */
  method OneOf(w: World, naming: Naming, pid: int, ghost first: nat) returns (r: Turn)
    requires first <= w.now
    modifies w`now, w`faults
    ensures w.now >= old(w.now) && w.faults >= old(w.faults)
    ensures r.Taken? ==> r.c.process.pid == pid && Sighted(w.processes, naming, r.c, first, w.now) &&
                         Owned(w.processes, naming, pid, first, w.now)
    ensures r.Skipped? ==> w.faults > old(w.faults) || Skippable(w.processes, naming, pid, first, w.now)
    ensures r.Broken? ==> r.error == ProcessFailure(Internal) &&
                          (w.faults > old(w.faults) || Absent(w.processes, pid, first, w.now))
  {
    hide Sighted, Absent, Foreign, Owned;
    ghost var called := w.now;
    var mine := Mine(w, naming, pid);
    SkippableSince(w.processes, naming, pid, first, called, w.now);
    if !mine {
      return Skipped;
    }
    ghost var looked := w.now;
    var candidate := Snapshot(w, naming, pid);
    if candidate.Ok? {
      SightedSince(w.processes, naming, candidate.value, first, looked, w.now);
      OwnedLater(w.processes, naming, [candidate.value], first, called, looked, w.now);
      assert candidate.value in [candidate.value];
      return Taken(candidate.value);
    }
    AbsentSince(w.processes, pid, first, looked, w.now);
    if candidate.error.kind.NotFound? || candidate.error.kind.Inaccessible? {
      return Skipped;
    }
    r := Broken(candidate.error);
  }

  lemma AbsentSince(run: nat -> Processes, pid: int, sooner: nat, first: nat, last: nat)
    requires sooner <= first
    ensures Absent(run, pid, first, last) ==> Absent(run, pid, sooner, last)
  {
  }

  lemma SkippableSince(run: nat -> Processes, naming: Naming, pid: int, sooner: nat, first: nat, last: nat)
    requires sooner <= first
    ensures Skippable(run, naming, pid, first, last) ==> Skippable(run, naming, pid, sooner, last)
  {
  }

  lemma ListedMore(candidates: seq<Candidate>, c: Candidate)
    ensures Listed(candidates + [c], c.process.pid)
    ensures forall pid | Listed(candidates, pid) :: Listed(candidates + [c], pid)
  {
    var all := candidates + [c];
    assert all[|candidates|] == c && c in all;
    forall pid | Listed(candidates, pid) ensures Listed(all, pid) {
      var x :| x in candidates && x.process.pid == pid;
      assert x in all;
    }
  }

  lemma SightedSince(run: nat -> Processes, naming: Naming, c: Candidate, sooner: nat, first: nat, last: nat)
    requires sooner <= first && Sighted(run, naming, c, first, last)
    ensures Sighted(run, naming, c, sooner, last)
  {
  }

  lemma StillSighted(run: nat -> Processes, naming: Naming, candidates: seq<Candidate>, first: nat, last: nat,
                     later: nat)
    requires last <= later && forall c | c in candidates :: Sighted(run, naming, c, first, last)
    ensures forall c | c in candidates :: Sighted(run, naming, c, first, later)
  {
    forall c | c in candidates ensures Sighted(run, naming, c, first, later) {
      assert Sighted(run, naming, c, first, last);
    }
  }

  /**
    A candidate that revalidates was one process all along: alive from the first reading of
    its birth to the second, with the same image loaded in the snapshot and after.
   */
  lemma {:induction false} RevalidatedLives(run: nat -> Processes, naming: Naming, c: Candidate, actual: Candidate,
                                            first: nat, middle: nat, between: nat, last: nat)
    requires LawfulProcesses(run) && LawfulNaming(naming) && middle <= between
    requires Sighted(run, naming, c, first, middle) && Sighted(run, naming, actual, between, last) &&
             SameIdentity(c, actual)
    ensures exists born: nat, loaded: nat, reborn: nat, reloaded: nat ::
              first <= born <= loaded <= middle && between <= reborn <= reloaded <= last &&
              LivedThrough(run, c, born, loaded, reborn, reloaded)
  {
    var born: nat, linked: nat, loaded: nat :| first <= born && loaded <= middle &&
      SightedAt(run, naming, c, born, linked, loaded);
    var reborn: nat, relinked: nat, reloaded: nat :|
      between <= reborn && reloaded <= last && SightedAt(run, naming, actual, reborn, relinked, reloaded);
    SameBirthLives(run, c.process.pid, c.process.createdAt, born, reborn);
    assert naming.fileIdHash(run(loaded)[c.process.pid].image) != "";
    assert LivedThrough(run, c, born, loaded, reborn, reloaded);
  }

  /**
    One process from `born` to `reborn`; its image at `loaded` and whatever the PID runs at
    `reloaded` are the candidate's.
   */
  ghost predicate LivedThrough(run: nat -> Processes, c: Candidate, born: nat, loaded: nat, reborn: nat,
                               reloaded: nat) {
    var pid := c.process.pid;
    && born <= loaded <= reborn <= reloaded
    && (forall t: nat | born <= t <= reborn :: Born(run, t, pid, c.process.createdAt))
    && pid in run(loaded) && c.fileIdentity == Some(run(loaded)[pid].image)
    && pid in run(reloaded) && c.fileIdentity == Some(run(reloaded)[pid].image)
  }
}
