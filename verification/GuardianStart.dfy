/**
  Starting a witness: how the owner and the guardian get through it whatever fails, and what
  the target and a dying owner are free to do meanwhile (supervisor_unix.go, guardian_unix.go).
 */
module GuardianStart {
  import opened Basics
  import opened Guardian

  ghost predicate GuardianMove(s: State, t: State, linux: bool) {
    exists a :: GuardianStep(s, a, t, linux)
  }

  /** A step of the owner that is not its death. */
  ghost predicate OwnerMove(s: State, t: State) {
    exists a: Action :: !a.Crash? && OwnerStep(s, a, t)
  }

  // ----- The guardian --------------------------------------------------------------------------

  /** The configuration was read; the target is a new process, alone in its group, the guardian's child. */
  ghost predicate TargetStarted(s: State, t: State) {
    && t.guardian.Started? && t.target == Some(s.next) && s.next !in s.members
    && t.members == s.members[s.next := Member(GUARDIAN, true, Alive)]
  }

  /** Reading, the guardian can always refuse, and start the target exactly once all was written and closed. */
  lemma {:induction false} ReadingMoves(s: State, linux: bool)
    requires Inv(s, linux) && s.guardian.Reading?
    ensures exists t :: GuardianMove(s, t, linux) && t.guardian == Left(false) && !t.statusOpen
    ensures (exists t :: GuardianMove(s, t, linux) && TargetStarted(s, t)) <==> s.config.Complete? && !s.configOpen
  {
    var left := Depart(s, false);
    assert GuardianStep(s, Refuse, left, linux) && GuardianMove(s, left, linux) && left.guardian == Left(false);
    var started := s.(guardian := Started, target := Some(s.next), next := s.next + 1,
                      members := s.members[s.next := Member(GUARDIAN, true, Alive)]);
    if s.config.Complete? && !s.configOpen {
      assert GuardianStep(s, StartTarget, started, linux);
      assert GuardianMove(s, started, linux) && TargetStarted(s, started);
    }
  }

  /** Having started the target, it tells the owner or fails to, and nothing else. */
  lemma {:induction false} StartedMoves(s: State, linux: bool)
    requires Inv(s, linux) && s.guardian.Started?
    ensures exists t :: GuardianMove(s, t, linux) && t.guardian.Watching? && t.statusWritten
    ensures exists t :: GuardianMove(s, t, linux) && t.guardian == StatusFailed(false)
    ensures forall t | GuardianMove(s, t, linux) ::
              t.members == s.members &&
              if t.statusWritten then t.guardian.Watching? else t.guardian == StatusFailed(false)
  {
    var told := s.(guardian := Watching, statusWritten := true, statusOpen := false);
    assert GuardianStep(s, ReportTarget, told, linux) && GuardianMove(s, told, linux) && told.guardian.Watching?;
    var failed := s.(guardian := StatusFailed(false));
    assert GuardianStep(s, ReportFails, failed, linux) && GuardianMove(s, failed, linux);
  }

  // ----- Nothing starts before its time -----------------------------------------------------------

  ghost predicate Delivered(s: State) {
    && (s.target.Some? ==> s.config.Complete? && !s.configOpen)
    && (s.guardian.Left? || s.guardian.Slain? ==> !s.statusOpen)
    && (s.owner.ReadingStatus? || s.owner.Ready? || s.owner.Waited? ==> s.config.Complete? && !s.configOpen)
  }

  /** A target was only ever started after the whole configuration had been written and the pipe closed. */
  lemma {:induction false} StartedMeansDelivered(states: seq<State>, linux: bool, i: nat)
    requires Run(states, linux) && i < |states|
    ensures Delivered(states[i])
  {
    hide Step, Delivered;
    if i > 0 {
      StartedMeansDelivered(states, linux, i - 1);
      RunKeeps(states, linux, i - 1);
      StepDelivers(states[i - 1], states[i], linux);
    } else {
      InitiallyDelivered();
    }
  }

  lemma InitiallyDelivered()
    ensures Delivered(Initial())
  {
  }

  lemma {:induction false} StepDelivers(s: State, t: State, linux: bool)
    requires Inv(s, linux) && Delivered(s) && Step(s, t, linux)
    ensures Delivered(t)
  {
    hide Inv, Delivered, TargetStep, GuardianStep, OwnerStep;
    var a :| TargetStep(s, a, t, linux) || GuardianStep(s, a, t, linux) || OwnerStep(s, a, t);
    if TargetStep(s, a, t, linux) {
      TargetDelivers(s, a, t, linux);
    } else if GuardianStep(s, a, t, linux) {
      GuardianDelivers(s, a, t, linux);
    } else {
      OwnerDelivers(s, a, t, linux);
    }
  }

  lemma {:induction false} TargetDelivers(s: State, a: Action, t: State, linux: bool)
    requires Delivered(s) && TargetStep(s, a, t, linux)
    ensures Delivered(t)
  {
  }

  lemma {:induction false} GuardianDelivers(s: State, a: Action, t: State, linux: bool)
    requires Delivered(s) && GuardianStep(s, a, t, linux)
    ensures Delivered(t)
  {
    hide DoomGroup, Without, Abandoned, ChildrenGone;
  }

  lemma {:induction false} OwnerDelivers(s: State, a: Action, t: State, linux: bool)
    requires Inv(s, linux) && Delivered(s) && OwnerStep(s, a, t)
    ensures Delivered(t)
  {
    hide Family, NoneAlive, DoomGroup, Abandoned;
  }

  // ----- The owner -------------------------------------------------------------------------------

  /** The owner has to wait: for the PID or the end of the status pipe, or for the guardian's end. */
  predicate Waits(s: State) {
    || (s.owner.ReadingStatus? && !s.statusWritten && s.statusOpen)
    || (s.owner.Ready? && !s.guardian.Left?)
  }

  /** A living owner is stuck nowhere: it can go on by itself, or it waits for a guardian that is still there. */
  lemma {:induction false} OwnerMoves(s: State, linux: bool)
    requires Reaches(linux, s) && !Finished(s.owner)
    ensures (exists t :: OwnerMove(s, t) && t.owner != s.owner) <==> !Waits(s)
    ensures Waits(s) ==> Present(s.guardian)
  {
    hide Run, Inv;
    var run: seq<State> :| run != [] && Run(run, linux) && run[|run| - 1] == s;
    StartedMeansDelivered(run, linux, |run| - 1);
    RunKeeps(run, linux, |run| - 1);
    WaitsForGuardian(s, linux);
    if !Waits(s) {
      var a, t := OwnerNext(s);
      assert OwnerMove(s, t);
    }
  }

  lemma WaitsForGuardian(s: State, linux: bool)
    requires Inv(s, linux) && Delivered(s)
    ensures Waits(s) ==> Present(s.guardian)
  {
    hide Family, Killed;
  }

  lemma {:induction false} OwnerNext(s: State) returns (a: Action, t: State)
    requires !Finished(s.owner) && !Waits(s)
    ensures !a.Crash? && OwnerStep(s, a, t) && t.owner != s.owner
  {
    match s.owner {
      case Preparing => a, t := SpawnFails, s.(owner := FailedSpawn);
      case Writing => a, t := Write, s.(owner := Closing, config := Complete);
      case Closing => a, t := Close, s.(owner := ReadingStatus, configOpen := false);
      case GivingUp => a, t := KillGuardian, Slay(s, if s.config.Complete? then FailedClose else FailedWrite);
      case ReadingStatus =>
        if s.statusWritten {
          a, t := ReadPid, s.(owner := Ready);
        } else {
          a, t := ReadEnd, Slay(s, FailedStatus);
        }
      case Ready => a, t := Wait, s.(owner := Waited, ownerOpen := false);
    }
  }

  /** Every way for the owner to finish is the end of some run. */
  lemma {:induction false} EveryEnding(linux: bool, ending: Owner)
    requires Finished(ending)
    ensures exists states: seq<State> :: EndsIn(states, linux, ending)
  {
    hide Run, Reaches;
    var s := FinishedAs(linux, ending);
    var states: seq<State> :| states != [] && Run(states, linux) && states[|states| - 1] == s by {
      Unfold(linux, s);
    }
    assert EndsIn(states, linux, ending);
  }

  lemma Unfold(linux: bool, s: State)
    requires Reaches(linux, s)
    ensures exists states: seq<State> :: states != [] && Run(states, linux) && states[|states| - 1] == s
  {
  }

  lemma {:induction false} FinishedAs(linux: bool, ending: Owner) returns (s: State)
    requires Finished(ending)
    ensures Reaches(linux, s) && s.owner == ending
  {
    hide Reaches;
    ReachesInitial(linux);
    match ending {
      case FailedSpawn =>
        s := Initial().(owner := FailedSpawn);
        ReachesOn(linux, Initial(), SpawnFails, s);
      case FailedWrite =>
        s := NotWritten(linux);
      case FailedClose =>
        ReachesNotClosed(linux);
        s := Slay(NotClosed(), FailedClose);
        ReachesOn(linux, NotClosed(), KillGuardian, s);
      case FailedStatus =>
        s := NotReported(linux);
      case Waited =>
        WaitReturns(linux);
        s := Depart(Done(), true).(owner := Waited, ownerOpen := false);
      case Crashed =>
        s := Initial().(owner := Crashed, ownerOpen := false, configOpen := false);
        ReachesOn(linux, Initial(), Crash, s);
    }
  }

  lemma {:induction false} NotWritten(linux: bool) returns (s: State)
    ensures Reaches(linux, s) && s.owner == FailedWrite
  {
    hide Reaches;
    ReachesInitial(linux);
    var s0 := Initial().(owner := Writing, guardian := Reading);
    ReachesOn(linux, Initial(), Spawn, s0);
    var s1 := s0.(owner := GivingUp, config := Partial, configOpen := false);
    ReachesOn(linux, s0, WriteFails, s1);
    s := Slay(s1, FailedWrite);
    ReachesOn(linux, s1, KillGuardian, s);
  }

  lemma {:induction false} NotReported(linux: bool) returns (s: State)
    ensures Reaches(linux, s) && s.owner == FailedStatus
  {
    hide Reaches;
    ReachesWritten(linux);
    var s0 := Initial().(owner := Closing, guardian := Reading, config := Complete);
    var s1 := s0.(owner := ReadingStatus, configOpen := false);
    ReachesOn(linux, s0, Close, s1);
    var s2 := Depart(s1, false);
    ReachesOn(linux, s1, Refuse, s2);
    s := Slay(s2, FailedStatus);
    ReachesOn(linux, s2, ReadEnd, s);
  }

  /** When the guardian is gone, whether it left or was killed, init has its children and nothing else changed. */
  lemma {:induction false} GuardianGone(s: State, t: State, linux: bool)
    requires Step(s, t, linux) && Present(s.guardian) && !Present(t.guardian)
    ensures t.members.Keys == s.members.Keys && !t.statusOpen
    ensures forall q | q in s.members ::
              t.members[q] == (if s.members[q].parent != GUARDIAN then s.members[q]
                               else Member(INIT, s.members[q].inGroup, s.members[q].life))
  {
    hide TargetStep, GuardianStep, OwnerStep, Abandoned;
    var a :| TargetStep(s, a, t, linux) || GuardianStep(s, a, t, linux) || OwnerStep(s, a, t);
    if TargetStep(s, a, t, linux) {
      TargetLeavesGuardian(s, a, t, linux);
    } else if GuardianStep(s, a, t, linux) {
      LeavesOrphans(s, a, t, linux);
    } else {
      KilledLeavesOrphans(s, a, t);
    }
    OrphansOf(s);
  }

  lemma OrphansOf(s: State)
    ensures Abandoned(s).Keys == s.members.Keys
    ensures forall q | q in s.members ::
              Abandoned(s)[q] == (if s.members[q].parent != GUARDIAN then s.members[q]
                                  else Member(INIT, s.members[q].inGroup, s.members[q].life))
  {
  }

  lemma TargetLeavesGuardian(s: State, a: Action, t: State, linux: bool)
    requires TargetStep(s, a, t, linux)
    ensures t.guardian == s.guardian
  {
    hide ExitOf, Without;
  }

  lemma LeavesOrphans(s: State, a: Action, t: State, linux: bool)
    requires GuardianStep(s, a, t, linux) && Present(s.guardian) && !Present(t.guardian)
    ensures t.members == Abandoned(s) && !t.statusOpen
  {
    hide Depart, DoomGroup, Without, Abandoned, ChildrenGone;
    DepartsFrom(s, false);
    DepartsFrom(s, true);
    assert t == Depart(s, false) || t == Depart(s, true);
  }

  lemma DepartsFrom(s: State, watched: bool)
    ensures Depart(s, watched).members == Abandoned(s) && !Depart(s, watched).statusOpen
  {
    hide Abandoned;
  }

  lemma KilledLeavesOrphans(s: State, a: Action, t: State)
    requires OwnerStep(s, a, t) && Present(s.guardian) && !Present(t.guardian)
    ensures t.members == Abandoned(s) && !t.statusOpen
  {
    hide DoomGroup, Abandoned;
  }

  // ----- What others are free to do ----------------------------------------------------------------

  /** p started a child, which begins in its group. */
  predicate Forked(s: State, t: State, p: int) {
    p in s.members && t.next == s.next + 1 &&
    t.members == s.members[s.next := Member(p, s.members[p].inGroup, Alive)]
  }

  predicate Deserted(s: State, t: State, p: int) {
    p in s.members && t.members == s.members[p := Member(s.members[p].parent, false, s.members[p].life)]
  }

  /** p is dead and to be reaped; its children now belong to whoever adopts orphans. */
  ghost predicate Exited(s: State, t: State, p: int, linux: bool) {
    && p in s.members && t.members.Keys == s.members.Keys
    && t.members[p] == Member(s.members[p].parent, s.members[p].inGroup, Dead)
    && forall q | q in s.members && q != p ::
         && t.members[q].inGroup == s.members[q].inGroup && t.members[q].life == s.members[q].life
         && t.members[q].parent ==
            (if s.members[q].parent != p then s.members[q].parent
             else if linux && !s.guardian.NotSpawned? && !s.guardian.Left? && !s.guardian.Slain? then GUARDIAN
             else INIT)
  }

  /** In any state a living process of the target may fork, leave the group and exit. */
  lemma {:induction false} TargetIsFree(s: State, p: int, linux: bool)
    requires p in s.members && s.members[p].life.Alive?
    ensures exists t :: Step(s, t, linux) && Forked(s, t, p)
    ensures exists t :: Step(s, t, linux) && Deserted(s, t, p)
    ensures exists t :: Step(s, t, linux) && Exited(s, t, p, linux)
  {
    hide Forked, Deserted, Exited, TargetStep, GuardianStep, OwnerStep;
    var t := MayFork(s, p, linux);
    assert Step(s, t, linux);
    t := MayLeaveGroup(s, p, linux);
    assert Step(s, t, linux);
    t := MayExit(s, p, linux);
    assert Step(s, t, linux);
  }

  lemma MayFork(s: State, p: int, linux: bool) returns (t: State)
    requires p in s.members && s.members[p].life.Alive?
    ensures TargetStep(s, Fork(p), t, linux) && Forked(s, t, p)
  {
    t := s.(members := s.members[s.next := Member(p, s.members[p].inGroup, Alive)], next := s.next + 1);
  }

  lemma MayLeaveGroup(s: State, p: int, linux: bool) returns (t: State)
    requires p in s.members && s.members[p].life.Alive?
    ensures TargetStep(s, LeaveGroup(p), t, linux) && Deserted(s, t, p)
  {
    t := s.(members := s.members[p := s.members[p].(inGroup := false)]);
  }

  lemma MayExit(s: State, p: int, linux: bool) returns (t: State)
    requires p in s.members && s.members[p].life.Alive?
    ensures TargetStep(s, Exit(p), t, linux) && Exited(s, t, p, linux)
  {
    t := s.(members := ExitOf(s, p, linux));
  }

  /** In any state a living owner may die, which closes its ends of the pipes and does nothing else. */
  lemma {:induction false} OwnerMayDie(s: State, linux: bool)
    requires !Finished(s.owner)
    ensures exists t :: Step(s, t, linux) && t == s.(owner := Crashed, ownerOpen := false, configOpen := false)
  {
    hide TargetStep, GuardianStep;
    var t := s.(owner := Crashed, ownerOpen := false, configOpen := false);
    assert OwnerStep(s, Crash, t) && Step(s, t, linux);
  }

  /** A ready owner may kill the group: nobody of it is alive then, and who left it lives on. */
  lemma {:induction false} OwnerMayKill(s: State, linux: bool)
    requires s.owner.Ready?
    ensures exists t :: Step(s, t, linux) && OnlyGroupKilled(s, t)
  {
    hide TargetStep, GuardianStep;
    var t := s.(members := DoomGroup(s.members));
    assert OwnerStep(s, ForceStop, t) && Step(s, t, linux) && OnlyGroupKilled(s, t);
  }

  ghost predicate OnlyGroupKilled(s: State, t: State) {
    && t.members.Keys == s.members.Keys && NoneAlive(t.members) && t.owner == s.owner && t.guardian == s.guardian
    && forall q | q in s.members && !s.members[q].inGroup :: t.members[q] == s.members[q]
  }
}
