/**
  The owner, the guardian and the target's process group as one state machine
  (internal/witness/guardian_unix.go and `Start` and `Wait` in supervisor_unix.go).
 */
module Guardian {
  import opened Basics

  /** The guardian as a parent; and whoever adopts orphans beyond it. */
  const GUARDIAN := 0
  const INIT := -1

  /** A process with SIGKILL pending runs no more code of its own. */
  datatype Life = Alive | Doomed | Dead

  datatype Member = Member(parent: int, inGroup: bool, life: Life)

  /** Where `runGuardian` is.  `Slain` is a guardian killed by its owner. */
  datatype Phase =
    | NotSpawned | Reading | Started | StatusFailed(killed: bool) | Watching
    | TargetExited(killed: bool) | OwnerLost(killed: bool) | Left(watched: bool) | Slain

  datatype Config = Unsent | Partial | Complete

  /** Where `Start` and `Wait` are.  A failed `Start` has killed the guardian and waited for it. */
  datatype Owner =
    | Preparing | Writing | Closing | GivingUp | ReadingStatus | Ready | Waited
    | FailedSpawn | FailedWrite | FailedClose | FailedStatus | Crashed

  predicate Finished(o: Owner) {
    o.Waited? || o.FailedSpawn? || o.FailedWrite? || o.FailedClose? || o.FailedStatus? || o.Crashed?
  }

  datatype State = State(guardian: Phase, owner: Owner, config: Config, configOpen: bool, statusWritten: bool,
                         statusOpen: bool, ownerOpen: bool, target: Option<int>, targetReaped: bool,
                         members: map<int, Member>, next: int)

  function Initial(): State {
    State(NotSpawned, Preparing, Unsent, true, false, true, true, None, false, map[], 1)
  }

  datatype Action =
    // the processes under the guardian
    | Fork(p: int) | LeaveGroup(p: int) | Exit(p: int) | Reap(p: int)
    // the guardian
    | Refuse | StartTarget | ReportTarget | ReportFails | KillGroup | ReapTarget | SeeTarget | SeeOwner | Leave
    // the owner
    | Spawn | SpawnFails | Write | WriteFails | Close | CloseFails | KillGuardian | ReadPid | ReadEnd | ForceStop
    | Wait | Crash

  // ----- Effects ------------------------------------------------------------------------------

  function Doom(m: Member): Member {
    if m.inGroup && m.life.Alive? then m.(life := Doomed) else m
  }

  /** `kill(-pid, SIGKILL)` reaches every member of the group at once. */
  function DoomGroup(members: map<int, Member>): map<int, Member> {
    map q | q in members :: Doom(members[q])
  }

  predicate Present(g: Phase) {
    !g.NotSpawned? && !g.Left? && !g.Slain?
  }

  /** On Linux the guardian is a subreaper and adopts orphans while it is there. */
  function Adopter(s: State, linux: bool): int {
    if linux && Present(s.guardian) then GUARDIAN else INIT
  }

  function Orphan(m: Member, p: int, adopter: int): Member {
    if m.parent == p then m.(parent := adopter) else m
  }

  function ExitOf(s: State, p: int, linux: bool): map<int, Member>
    requires p in s.members
  {
    map q | q in s.members :: if q == p then s.members[q].(life := Dead) else Orphan(s.members[q], p, Adopter(s, linux))
  }

  /** The guardian is gone; init adopts its children. */
  function Abandoned(s: State): map<int, Member> {
    map q | q in s.members :: Orphan(s.members[q], GUARDIAN, INIT)
  }

  function Without(members: map<int, Member>, p: int): map<int, Member> {
    map q | q in members && q != p :: members[q]
  }

  /** Killing a guardian that already left does nothing. */
  function Slay(s: State, owner: Owner): State {
    if Present(s.guardian) then
      s.(guardian := Slain, members := Abandoned(s), statusOpen := false, configOpen := false, ownerOpen := false,
        owner := owner)
    else s.(configOpen := false, ownerOpen := false, owner := owner)
  }

  function Depart(s: State, watched: bool): State {
    s.(guardian := Left(watched), members := Abandoned(s), statusOpen := false)
  }

  ghost predicate ChildrenGone(s: State) {
    forall q | q in s.members :: s.members[q].parent != GUARDIAN
  }

  // ----- Steps ---------------------------------------------------------------------------------

  /** Processes come and go as they like; only those not doomed act. */
  ghost predicate TargetStep(s: State, a: Action, t: State, linux: bool) {
    match a
    case Fork(p) => p in s.members && s.members[p].life.Alive? &&
                    t == s.(members := s.members[s.next := Member(p, s.members[p].inGroup, Alive)], next := s.next + 1)
    case LeaveGroup(p) => p in s.members && s.members[p].life.Alive? &&
                          t == s.(members := s.members[p := s.members[p].(inGroup := false)])
    case Exit(p) => p in s.members && !s.members[p].life.Dead? && t == s.(members := ExitOf(s, p, linux))
    // by a parent other than the guardian
    case Reap(p) => p in s.members && s.members[p].life.Dead? && s.members[p].parent != GUARDIAN &&
                    t == s.(members := Without(s.members, p))
    case _ => false
  }

  ghost predicate GuardianStep(s: State, a: Action, t: State, linux: bool) {
    match a
    // a configuration that does not decode, or a target that does not start
    case Refuse => s.guardian.Reading? && t == Depart(s, false)
    // only a complete document decodes, and only its end ends the reading
    case StartTarget => s.guardian.Reading? && s.config.Complete? && !s.configOpen &&
                        t == s.(guardian := Started, target := Some(s.next), next := s.next + 1,
                                members := s.members[s.next := Member(GUARDIAN, true, Alive)])
    case ReportTarget => s.guardian.Started? &&
                         t == s.(guardian := Watching, statusWritten := true, statusOpen := false)
    case ReportFails => s.guardian.Started? && t == s.(guardian := StatusFailed(false))
    case KillGroup => (s.guardian.StatusFailed? || s.guardian.TargetExited? || s.guardian.OwnerLost?) &&
                      !s.guardian.killed &&
                      t == s.(guardian := s.guardian.(killed := true), members := DoomGroup(s.members))
    // `command.Wait`, in a goroutine of its own while watching
    case ReapTarget => (s.guardian.Watching? || s.guardian.StatusFailed? || s.guardian.OwnerLost?) &&
                       !s.targetReaped && s.target.Some? &&
                       s.target.value in s.members && s.members[s.target.value].life.Dead? &&
                       t == s.(members := Without(s.members, s.target.value), targetReaped := true)
    case SeeTarget => s.guardian.Watching? && s.targetReaped && t == s.(guardian := TargetExited(false))
    case SeeOwner => s.guardian.Watching? && !s.ownerOpen && t == s.(guardian := OwnerLost(false))
    // `reapGuardianChildren` on Linux
    case Reap(p) => linux && s.targetReaped && (s.guardian == TargetExited(true) || s.guardian == OwnerLost(true)) &&
                    p in s.members && s.members[p].life.Dead? && s.members[p].parent == GUARDIAN &&
                    t == s.(members := Without(s.members, p))
    case Leave => if s.guardian == StatusFailed(true) then s.targetReaped && t == Depart(s, false)
                  else s.targetReaped && (s.guardian == TargetExited(true) || s.guardian == OwnerLost(true)) &&
                       (linux ==> ChildrenGone(s)) && t == Depart(s, true)
    case _ => false
  }

  ghost predicate OwnerStep(s: State, a: Action, t: State) {
    match a
    case Spawn => s.owner.Preparing? && t == s.(owner := Writing, guardian := Reading)
    case SpawnFails => s.owner.Preparing? && t == s.(owner := FailedSpawn)
    case Write => s.owner.Writing? && t == s.(owner := Closing, config := Complete)
    // nothing, or a proper prefix, was written; the pipe is closed all the same
    case WriteFails => s.owner.Writing? && t == s.(owner := GivingUp, config := Partial, configOpen := false)
    case Close => s.owner.Closing? && t == s.(owner := ReadingStatus, configOpen := false)
    // closing reports an error, yet the descriptor is gone
    case CloseFails => s.owner.Closing? && t == s.(owner := GivingUp, configOpen := false)
    case KillGuardian => s.owner.GivingUp? && t == Slay(s, if s.config.Complete? then FailedClose else FailedWrite)
    case ReadPid => s.owner.ReadingStatus? && s.statusWritten && t == s.(owner := Ready)
    // the end of the status pipe without a line
    case ReadEnd => s.owner.ReadingStatus? && !s.statusWritten && !s.statusOpen && t == Slay(s, FailedStatus)
    case ForceStop => s.owner.Ready? && t == s.(members := DoomGroup(s.members))
    case Wait => s.owner.Ready? && s.guardian.Left? && t == s.(owner := Waited, ownerOpen := false)
    // at any step; the kernel closes its descriptors
    case Crash => !Finished(s.owner) && t == s.(owner := Crashed, ownerOpen := false, configOpen := false)
    case _ => false
  }

  ghost predicate Step(s: State, t: State, linux: bool) {
    exists a :: TargetStep(s, a, t, linux) || GuardianStep(s, a, t, linux) || OwnerStep(s, a, t)
  }

  /** A finite run of the three together. */
  ghost predicate Run(states: seq<State>, linux: bool) {
    states != [] && states[0] == Initial() && forall i | 0 < i < |states| :: Step(states[i - 1], states[i], linux)
  }

  // ----- What every run keeps -----------------------------------------------------------------

  /** No member of the target's group is left that still runs code of its own. */
  ghost predicate NoneAlive(members: map<int, Member>) {
    forall q | q in members :: members[q].inGroup ==> !members[q].life.Alive?
  }

  /** A parent is older than its child and not dead, or else one of the two adopters. */
  ghost predicate Parented(members: map<int, Member>, q: int)
    requires q in members
  {
    var p := members[q].parent;
    p == INIT || p == GUARDIAN || (p in members && p < q && !members[p].life.Dead?)
  }

  ghost predicate Family(s: State, linux: bool) {
    && s.next > 0
    && (forall q | q in s.members :: 0 < q < s.next && Parented(s.members, q))
    && (linux && Present(s.guardian) ==> forall q | q in s.members :: s.members[q].parent != INIT)
  }

  /** After the kill, and after the guardian has left. */
  predicate GroupKilled(g: Phase) {
    g == StatusFailed(true) || g == TargetExited(true) || g == OwnerLost(true) || g.Left?
  }

  ghost predicate Killed(s: State, linux: bool) {
    && (GroupKilled(s.guardian) ==> NoneAlive(s.members))
    && (linux && s.guardian == Left(true) ==> s.members == map[])
    && (s.target.None? ==> s.members == map[])
    && (s.guardian.NotSpawned? || s.guardian.Reading? ==> s.target.None?)
    && (Present(s.guardian) && !s.guardian.Reading? ==> s.target.Some?)
  }

  ghost predicate Protocol(s: State) {
    && (s.config != Complete ==> s.target.None?)
    && (s.statusWritten ==> s.target.Some? && !s.guardian.Started? && !s.guardian.StatusFailed?)
    && (!s.statusOpen ==> s.statusWritten || s.guardian.Left? || s.guardian.Slain?)
    && (s.owner.Preparing? || s.owner.FailedSpawn? ==> s.guardian.NotSpawned?)
    && (s.owner.Ready? || s.owner.Waited? ==> s.statusWritten)
    && (s.guardian == Left(false) ==> !s.statusWritten)
    && (s.guardian.Slain? ==> s.owner.FailedWrite? || s.owner.FailedClose?)
    && (s.owner.Waited? || s.owner.FailedStatus? ==> s.guardian.Left?)
    && (s.owner.Preparing? || s.owner.Writing? ==> s.config.Unsent?) && (s.owner.FailedWrite? ==> s.config.Partial?)
    && (s.owner.GivingUp? ==> !s.config.Unsent?) && (s.owner.Closing? ==> s.config.Complete?)
    && (s.guardian.NotSpawned? ==> s.owner.Preparing? || s.owner.FailedSpawn? || s.owner.Crashed?)
  }

  ghost predicate Inv(s: State, linux: bool) {
    Family(s, linux) && Killed(s, linux) && Protocol(s)
  }

  /** A dead member is nobody's parent, so it can be removed. */
  lemma {:induction false} RemovalKeepsFamily(s: State, p: int, t: State, linux: bool)
    requires Family(s, linux) && p in s.members && s.members[p].life.Dead?
    requires t.members == Without(s.members, p) && t.next == s.next && t.guardian == s.guardian
    ensures Family(t, linux)
  {
    forall q | q in t.members ensures Parented(t.members, q) {
      assert Parented(s.members, q);
    }
  }

  /** No process of the target touches the protocol, revives anyone or adds to a killed group. */
  lemma {:induction false} MembersKeepRest(s: State, t: State, linux: bool)
    requires Killed(s, linux) && Protocol(s) && t == s.(members := t.members, next := t.next)
    requires s.members == map[] ==> t.members == map[]
    requires NoneAlive(s.members) ==> NoneAlive(t.members)
    ensures Killed(t, linux) && Protocol(t)
  {
  }

  lemma {:induction false} ForkKeeps(s: State, p: int, t: State, linux: bool)
    requires Inv(s, linux) && TargetStep(s, Fork(p), t, linux)
    ensures Inv(t, linux)
  {
    hide Killed, Protocol;
    forall q | q in t.members ensures Parented(t.members, q) {
      if q in s.members {
        assert Parented(s.members, q);
      }
    }
    MembersKeepRest(s, t, linux);
  }

  lemma {:induction false} LeaveGroupKeeps(s: State, p: int, t: State, linux: bool)
    requires Inv(s, linux) && TargetStep(s, LeaveGroup(p), t, linux)
    ensures Inv(t, linux)
  {
    hide Killed, Protocol;
    forall q | q in t.members ensures Parented(t.members, q) {
      assert Parented(s.members, q);
    }
    MembersKeepRest(s, t, linux);
  }

  lemma {:induction false} ExitKeeps(s: State, p: int, t: State, linux: bool)
    requires Inv(s, linux) && TargetStep(s, Exit(p), t, linux)
    ensures Inv(t, linux)
  {
    hide Killed, Protocol;
    forall q | q in t.members ensures Parented(t.members, q) {
      assert Parented(s.members, q);
    }
    MembersKeepRest(s, t, linux);
  }

  lemma {:induction false} ReapKeeps(s: State, p: int, t: State, linux: bool)
    requires Inv(s, linux) && TargetStep(s, Reap(p), t, linux)
    ensures Inv(t, linux)
  {
    hide Killed, Protocol;
    RemovalKeepsFamily(s, p, t, linux);
    MembersKeepRest(s, t, linux);
  }

  lemma {:induction false} AbandonKeepsFamily(s: State, t: State, linux: bool)
    requires Family(s, linux) && t.members == Abandoned(s) && t.next == s.next && !Present(t.guardian)
    ensures Family(t, linux) && (NoneAlive(s.members) ==> NoneAlive(t.members)) &&
            (s.members == map[] ==> t.members == map[])
  {
    forall q | q in t.members ensures Parented(t.members, q) {
      assert Parented(s.members, q);
    }
  }

  lemma {:induction false} DoomKeepsFamily(s: State, t: State, linux: bool)
    requires Family(s, linux) && t.members == DoomGroup(s.members) && t.next == s.next &&
             (Present(t.guardian) ==> Present(s.guardian))
    ensures Family(t, linux) && NoneAlive(t.members) && (s.members == map[] ==> t.members == map[])
  {
    forall q | q in t.members ensures Parented(t.members, q) {
      assert Parented(s.members, q);
    }
  }

  /** The oldest descendant is a child. */
  lemma {:induction false} SomeChild(s: State)
    requires Family(s, true) && Present(s.guardian)
    ensures s.members == map[] || exists q :: q in s.members && s.members[q].parent == GUARDIAN
  {
    if s.members.Keys != {} {
      LeastOf(s.members.Keys);
      var q :| Least(s.members.Keys, q);
      assert Parented(s.members, q);
    }
  }

  /** With every child reaped there are no descendants left either. */
  lemma {:induction false} LeavingEmpty(s: State, t: State)
    requires Family(s, true) && Present(s.guardian) && ChildrenGone(s) && t == Depart(s, true)
    ensures t.members == map[]
  {
    SomeChild(s);
  }

  /** Nobody's parent, group or life changed. */
  lemma FamilyStays(s: State, t: State, linux: bool)
    requires Family(s, linux) && t.members == s.members && t.next == s.next &&
             (Present(t.guardian) ==> Present(s.guardian))
    ensures Family(t, linux)
  {
  }

  lemma {:induction false} StartKeeps(s: State, t: State, linux: bool)
    requires Inv(s, linux) && GuardianStep(s, StartTarget, t, linux)
    ensures Inv(t, linux)
  {
  }

  lemma {:induction false} RefuseKeeps(s: State, t: State, linux: bool)
    requires Inv(s, linux) && GuardianStep(s, Refuse, t, linux)
    ensures Inv(t, linux)
  {
    AbandonKeepsFamily(s, t, linux);
  }

  lemma {:induction false} LeaveKeeps(s: State, t: State, linux: bool)
    requires Inv(s, linux) && GuardianStep(s, Leave, t, linux)
    ensures Inv(t, linux)
  {
    AbandonKeepsFamily(s, t, linux);
    if linux && t.guardian == Left(true) {
      LeavingEmpty(s, t);
    }
  }

  lemma RemovalKeepsGroup(members: map<int, Member>, p: int)
    ensures NoneAlive(members) ==> NoneAlive(Without(members, p))
    ensures members == map[] ==> Without(members, p) == map[]
  {
  }

  /** `command.Wait` and `reapGuardianChildren` remove the dead alone. */
  lemma {:induction false} GuardianReapKeeps(s: State, a: Action, t: State, linux: bool)
    requires Inv(s, linux) && GuardianStep(s, a, t, linux) && (a.ReapTarget? || a.Reap?)
    ensures Inv(t, linux)
  {
    hide Family, NoneAlive, Without;
    var p := if a.ReapTarget? then s.target.value else a.p;
    RemovalKeepsGroup(s.members, p);
    RemovalKeepsFamily(s, p, t, linux);
  }

  lemma {:induction false} KillGroupKeeps(s: State, t: State, linux: bool)
    requires Inv(s, linux) && GuardianStep(s, KillGroup, t, linux)
    ensures Inv(t, linux)
  {
    hide Family, NoneAlive, DoomGroup;
    DoomKeepsFamily(s, t, linux);
  }

  /** What the guardian writes and sees changes no process. */
  lemma {:induction false} WatchKeeps(s: State, a: Action, t: State, linux: bool)
    requires Inv(s, linux) && GuardianStep(s, a, t, linux)
    requires a.ReportTarget? || a.ReportFails? || a.SeeTarget? || a.SeeOwner?
    ensures Inv(t, linux)
  {
    hide Family, NoneAlive;
    FamilyStays(s, t, linux);
  }

  lemma OnlyGuardianActions(s: State, a: Action, t: State, linux: bool)
    requires GuardianStep(s, a, t, linux)
    ensures a.Refuse? || a.StartTarget? || a.KillGroup? || a.ReapTarget? || a.Reap? || a.Leave? ||
            a.ReportTarget? || a.ReportFails? || a.SeeTarget? || a.SeeOwner?
  {
  }

  lemma {:induction false} GuardianKeeps(s: State, a: Action, t: State, linux: bool)
    requires Inv(s, linux) && GuardianStep(s, a, t, linux)
    ensures Inv(t, linux)
  {
    hide Inv, GuardianStep;
    OnlyGuardianActions(s, a, t, linux);
    match a {
      case Refuse => RefuseKeeps(s, t, linux);
      case StartTarget => StartKeeps(s, t, linux);
      case KillGroup => KillGroupKeeps(s, t, linux);
      case ReapTarget => GuardianReapKeeps(s, a, t, linux);
      case Reap(_) => GuardianReapKeeps(s, a, t, linux);
      case Leave => LeaveKeeps(s, t, linux);
      case _ => WatchKeeps(s, a, t, linux);
    }
  }

  lemma {:induction false} SlayKeeps(s: State, owner: Owner, linux: bool)
    requires Inv(s, linux) &&
             (owner == FailedWrite || owner == FailedClose || (owner == FailedStatus && s.guardian.Left?))
    requires owner == FailedWrite ==> s.config.Partial?
    requires !s.guardian.NotSpawned?
    ensures Inv(Slay(s, owner), linux)
  {
    if Present(s.guardian) {
      AbandonKeepsFamily(s, Slay(s, owner), linux);
    }
  }

  lemma {:induction false} OwnerKeeps(s: State, a: Action, t: State, linux: bool)
    requires Inv(s, linux) && OwnerStep(s, a, t)
    ensures Inv(t, linux)
  {
    hide Inv, OwnerStep;
    if a.KillGuardian? || a.ReadEnd? {
      KillingKeeps(s, a, t, linux);
    } else if a.ForceStop? {
      ForceStopKeeps(s, t, linux);
    } else {
      FlagsKeep(s, a, t, linux);
    }
  }

  lemma {:induction false} KillingKeeps(s: State, a: Action, t: State, linux: bool)
    requires Inv(s, linux) && OwnerStep(s, a, t) && (a.KillGuardian? || a.ReadEnd?)
    ensures Inv(t, linux)
  {
    hide Family, NoneAlive, Slay;
    if a.ReadEnd? {
      SlayKeeps(s, FailedStatus, linux);
    } else {
      SlayKeeps(s, if s.config.Complete? then FailedClose else FailedWrite, linux);
    }
  }

  lemma {:induction false} ForceStopKeeps(s: State, t: State, linux: bool)
    requires Inv(s, linux) && OwnerStep(s, ForceStop, t)
    ensures Inv(t, linux)
  {
    hide Family, NoneAlive;
    DoomKeepsFamily(s, t, linux);
  }

  /** The other steps of the owner leave the processes alone. */
  lemma {:induction false} FlagsKeep(s: State, a: Action, t: State, linux: bool)
    requires Inv(s, linux) && OwnerStep(s, a, t) && !a.KillGuardian? && !a.ReadEnd? && !a.ForceStop?
    ensures Inv(t, linux)
  {
    hide NoneAlive, Slay, DoomGroup;
  }

  lemma {:induction false} StepKeeps(s: State, t: State, linux: bool)
    requires Inv(s, linux) && Step(s, t, linux)
    ensures Inv(t, linux)
  {
    hide Inv, TargetStep, GuardianStep, OwnerStep;
    var a :| TargetStep(s, a, t, linux) || GuardianStep(s, a, t, linux) || OwnerStep(s, a, t);
    if TargetStep(s, a, t, linux) {
      TargetKeeps(s, a, t, linux);
    } else if GuardianStep(s, a, t, linux) {
      GuardianKeeps(s, a, t, linux);
    } else {
      OwnerKeeps(s, a, t, linux);
    }
  }

  lemma OnlyTargetActions(s: State, a: Action, t: State, linux: bool)
    requires TargetStep(s, a, t, linux)
    ensures a.Fork? || a.LeaveGroup? || a.Exit? || a.Reap?
  {
  }

  lemma TargetKeeps(s: State, a: Action, t: State, linux: bool)
    requires Inv(s, linux) && TargetStep(s, a, t, linux)
    ensures Inv(t, linux)
  {
    hide Inv, TargetStep;
    OnlyTargetActions(s, a, t, linux);
    match a {
      case Fork(p) => ForkKeeps(s, p, t, linux);
      case LeaveGroup(p) => LeaveGroupKeeps(s, p, t, linux);
      case Exit(p) => ExitKeeps(s, p, t, linux);
      case Reap(p) => ReapKeeps(s, p, t, linux);
      case _ =>
    }
  }

  lemma {:induction false} RunKeeps(states: seq<State>, linux: bool, i: nat)
    requires Run(states, linux) && i < |states|
    ensures Inv(states[i], linux)
  {
    if i > 0 {
      RunKeeps(states, linux, i - 1);
      StepKeeps(states[i - 1], states[i], linux);
    }
  }

  // ----- No orphan ------------------------------------------------------------------------------

  /**
    In every interleaving, with the owner dying at any step and the target forking as it
    likes, a guardian that left by its own code leaves nobody alive in the target's group,
    then and ever after.  On Linux, where it reaps what it adopts, no descendant is left at all.
   */
  lemma {:induction false} NoOrphan(states: seq<State>, linux: bool, i: nat)
    requires Run(states, linux) && i < |states| && states[i].guardian.Left?
    ensures NoneAlive(states[i].members)
    ensures linux && states[i].guardian == Left(true) ==> states[i].members == map[]
  {
    RunKeeps(states, linux, i);
  }

  /** `Wait` returns only when the guardian has left, and then on Linux no descendant at all is left. */
  lemma {:induction false} WaitedMeansLeft(states: seq<State>, linux: bool, i: nat)
    requires Run(states, linux) && i < |states| && states[i].owner.Waited?
    ensures states[i].guardian.Left? && NoneAlive(states[i].members)
    ensures linux ==> states[i].members == map[]
  {
    RunKeeps(states, linux, i);
  }

  predicate FailedStart(o: Owner) {
    o.FailedSpawn? || o.FailedWrite? || o.FailedClose? || o.FailedStatus?
  }

  /** A run that ends in this kind of failed `Start`, with these members left. */
  ghost predicate EndsIn(states: seq<State>, linux: bool, failure: Owner) {
    states != [] && Run(states, linux) && states[|states| - 1].owner == failure
  }

  /** Every run that fails this way leaves nobody alive in the target's group. */
  ghost predicate CleanFailure(linux: bool, failure: Owner) {
    forall states: seq<State> | EndsIn(states, linux, failure) :: NoneAlive(states[|states| - 1].members)
  }

  /** A `Start` that fails leaves nobody alive in the group, unless it failed on closing a completely written pipe. */
  lemma {:induction false} FailedStartIsClean(states: seq<State>, linux: bool, i: nat)
    requires Run(states, linux) && i < |states|
    requires states[i].owner.FailedSpawn? || states[i].owner.FailedWrite? || states[i].owner.FailedStatus?
    ensures NoneAlive(states[i].members)
  {
    RunKeeps(states, linux, i);
  }

  /** And even then nobody is alive if the target was never started, or the guardian had left by itself. */
  lemma {:induction false} FailedCloseIsCleanWhen(states: seq<State>, linux: bool, i: nat)
    requires Run(states, linux) && i < |states| && states[i].owner.FailedClose?
    ensures states[i].target.None? || states[i].guardian.Left? ==> NoneAlive(states[i].members)
  {
    RunKeeps(states, linux, i);
  }

  /** Some run ends in this state. */
  ghost predicate Reaches(linux: bool, s: State) {
    exists states: seq<State> :: states != [] && Run(states, linux) && states[|states| - 1] == s
  }

  lemma ReachesInitial(linux: bool)
    ensures Reaches(linux, Initial())
  {
    assert Run([Initial()], linux);
    assert [Initial()][|[Initial()]| - 1] == Initial();
  }

  lemma {:induction false} ReachesOn(linux: bool, s: State, a: Action, t: State)
    requires Reaches(linux, s) && (TargetStep(s, a, t, linux) || GuardianStep(s, a, t, linux) || OwnerStep(s, a, t))
    ensures Reaches(linux, t)
  {
    hide TargetStep, GuardianStep, OwnerStep;
    var states: seq<State> :| states != [] && Run(states, linux) && states[|states| - 1] == s;
    var all := states + [t];
    assert Step(s, t, linux);
    assert Run(all, linux) && all[|all| - 1] == t;
  }

  lemma {:induction false} ReachesWritten(linux: bool)
    ensures Reaches(linux, Initial().(owner := Closing, guardian := Reading, config := Complete))
  {
    hide Reaches;
    ReachesInitial(linux);
    var s := Initial().(owner := Writing, guardian := Reading);
    ReachesOn(linux, Initial(), Spawn, s);
    ReachesOn(linux, s, Write, s.(owner := Closing, config := Complete));
  }

  /** Everything was written and read, and closing failed. */
  function NotClosed(): State {
    Initial().(owner := GivingUp, guardian := Started, config := Complete, configOpen := false, target := Some(1),
               next := 2, members := map[1 := Member(GUARDIAN, true, Alive)])
  }

  lemma {:induction false} ReachesNotClosed(linux: bool)
    ensures Reaches(linux, NotClosed())
  {
    hide Reaches;
    ReachesWritten(linux);
    var s0 := Initial().(owner := Closing, guardian := Reading, config := Complete);
    var s1 := s0.(owner := GivingUp, configOpen := false);
    ReachesOn(linux, s0, CloseFails, s1);
    ReachesOn(linux, s1, StartTarget, NotClosed());
  }

  /**
    The exception is real: the guardian has the whole configuration and may have started
    the target when the owner kills it, and nobody is left to kill the group.
   */
  lemma {:induction false} FailedCloseCanOrphan(linux: bool)
    ensures exists states: seq<State> :: EndsIn(states, linux, FailedClose) && !NoneAlive(states[|states| - 1].members)
  {
    hide NoneAlive, Run, Reaches;
    ReachesNotClosed(linux);
    ReachesOn(linux, NotClosed(), KillGuardian, Slay(NotClosed(), FailedClose));
    OrphanLeft(linux, Slay(NotClosed(), FailedClose), 1);
  }

  lemma OrphanLeft(linux: bool, s: State, q: int)
    requires Reaches(linux, s) && s.owner == FailedClose
    requires q in s.members && s.members[q].inGroup && s.members[q].life.Alive?
    ensures exists states: seq<State> :: EndsIn(states, linux, FailedClose) && !NoneAlive(states[|states| - 1].members)
  {
    hide Run;
    var states: seq<State> :| states != [] && Run(states, linux) && states[|states| - 1] == s;
    assert EndsIn(states, linux, FailedClose) && !NoneAlive(states[|states| - 1].members);
  }

  /** Of the ways `Start` can fail, exactly the failed close can leave the target alive. */
  lemma {:induction false} CleanFailureExactly(linux: bool, failure: Owner)
    requires FailedStart(failure)
    ensures CleanFailure(linux, failure) <==> failure != FailedClose
  {
    hide Run, NoneAlive;
    if failure == FailedClose {
      FailedCloseCanOrphan(linux);
      var states: seq<State> :| EndsIn(states, linux, FailedClose) && !NoneAlive(states[|states| - 1].members);
    } else {
      forall states: seq<State> | EndsIn(states, linux, failure) ensures NoneAlive(states[|states| - 1].members) {
        FailedStartIsClean(states, linux, |states| - 1);
      }
    }
  }

  /** The owner waits for the PID of the target just started. */
  function Launched(): State {
    Initial().(owner := ReadingStatus, guardian := Started, config := Complete, configOpen := false, target := Some(1),
               next := 2, members := map[1 := Member(GUARDIAN, true, Alive)])
  }

  lemma {:induction false} ReachesLaunched(linux: bool)
    ensures Reaches(linux, Launched())
  {
    hide Reaches;
    ReachesWritten(linux);
    var s0 := Initial().(owner := Closing, guardian := Reading, config := Complete);
    var s1 := s0.(owner := ReadingStatus, configOpen := false);
    ReachesOn(linux, s0, Close, s1);
    ReachesOn(linux, s1, StartTarget, Launched());
  }

  /** The target has been reported to the owner and is being watched. */
  function Attended(): State {
    Launched().(owner := Ready, guardian := Watching, statusWritten := true, statusOpen := false)
  }

  lemma {:induction false} ReachesAttended(linux: bool)
    ensures Reaches(linux, Attended())
  {
    hide Reaches;
    ReachesLaunched(linux);
    var s := Launched().(guardian := Watching, statusWritten := true, statusOpen := false);
    ReachesOn(linux, Launched(), ReportTarget, s);
    ReachesOn(linux, s, ReadPid, Attended());
  }

  /** The target exited by itself and was reaped. */
  function Done(): State {
    Attended().(guardian := TargetExited(true), targetReaped := true, members := map[])
  }

  lemma {:induction false} ReachesDone(linux: bool)
    ensures Reaches(linux, Done())
  {
    hide Reaches;
    ReachesAttended(linux);
    var s1 := Attended().(members := map[1 := Member(GUARDIAN, true, Dead)]);
    ReachesOn(linux, Attended(), Exit(1), s1);
    var s2 := s1.(members := map[], targetReaped := true);
    ReachesOn(linux, s1, ReapTarget, s2);
    var s3 := s2.(guardian := TargetExited(false));
    ReachesOn(linux, s2, SeeTarget, s3);
    ReachesOn(linux, s3, KillGroup, Done());
  }

  /** `Wait` can return: here after a target that exited by itself. */
  lemma {:induction false} WaitReturns(linux: bool)
    ensures Reaches(linux, Depart(Done(), true).(owner := Waited, ownerOpen := false))
  {
    hide Reaches;
    ReachesDone(linux);
    ReachesOn(linux, Done(), Leave, Depart(Done(), true));
    ReachesOn(linux, Depart(Done(), true), Wait, Depart(Done(), true).(owner := Waited, ownerOpen := false));
  }
}
