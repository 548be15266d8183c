/**
  That a guardian with an ending to see to comes to it by itself, and the one thing that
  can hold it up (internal/witness/guardian_unix.go).
 */
module GuardianProgress {
  import opened Basics
  import opened Guardian

  // ----- The target is the guardian's to reap ------------------------------------------------

  ghost predicate Kept(s: State) {
    && (s.target.Some? ==> s.target.value < s.next)
    && (s.targetReaped ==> s.target.Some? && s.target.value !in s.members)
    && (Present(s.guardian) && s.target.Some? && !s.targetReaped ==>
          s.target.value in s.members && s.members[s.target.value].parent == GUARDIAN)
    && (s.guardian.TargetExited? ==> s.targetReaped)
  }

  lemma {:induction false} TargetKeepsKept(s: State, a: Action, t: State, linux: bool)
    requires Inv(s, linux) && Kept(s) && TargetStep(s, a, t, linux)
    ensures Kept(t)
  {
    hide Killed, Protocol;
  }

  lemma {:induction false} GuardianKeepsKept(s: State, a: Action, t: State, linux: bool)
    requires Inv(s, linux) && Kept(s) && GuardianStep(s, a, t, linux)
    ensures Kept(t)
  {
    hide Family, Protocol;
  }

  lemma {:induction false} OwnerKeepsKept(s: State, a: Action, t: State, linux: bool)
    requires Inv(s, linux) && Kept(s) && OwnerStep(s, a, t)
    ensures Kept(t)
  {
    hide Family, NoneAlive;
  }

  lemma {:induction false} StepKeepsKept(s: State, t: State, linux: bool)
    requires Inv(s, linux) && Kept(s) && Step(s, t, linux)
    ensures Inv(t, linux) && Kept(t)
  {
    hide Inv, Kept, TargetStep, GuardianStep, OwnerStep;
    StepKeeps(s, t, linux);
    var a :| TargetStep(s, a, t, linux) || GuardianStep(s, a, t, linux) || OwnerStep(s, a, t);
    if TargetStep(s, a, t, linux) {
      TargetKeepsKept(s, a, t, linux);
    } else if GuardianStep(s, a, t, linux) {
      GuardianKeepsKept(s, a, t, linux);
    } else {
      OwnerKeepsKept(s, a, t, linux);
    }
  }

  lemma {:induction false} RunKeepsKept(states: seq<State>, linux: bool, i: nat)
    requires Run(states, linux) && i < |states|
    ensures Inv(states[i], linux) && Kept(states[i])
  {
    hide Inv, Step;
    RunKeeps(states, linux, i);
    if i > 0 {
      RunKeepsKept(states, linux, i - 1);
      StepKeepsKept(states[i - 1], states[i], linux);
    }
  }

  // ----- Steps nobody else has to take ---------------------------------------------------------

  /** A step of the guardian, or the exit of a process that has been killed. */
  ghost predicate Unaided(s: State, a: Action, t: State, linux: bool) {
    GuardianStep(s, a, t, linux) ||
    (a.Exit? && a.p in s.members && s.members[a.p].life.Doomed? && TargetStep(s, a, t, linux))
  }

  predicate TargetGone(s: State) {
    s.targetReaped ||
    (s.target.Some? && s.target.value in s.members && s.members[s.target.value].life.Dead?)
  }

  /** The owner is gone, the target has exited, or its PID could not be reported. */
  predicate Ending(s: State) {
    (s.guardian.Watching? && (!s.ownerOpen || TargetGone(s))) || s.guardian.StatusFailed? || s.guardian.TargetExited? ||
    s.guardian.OwnerLost?
  }

  predicate Escaped(m: Member) {
    m.life.Alive? && !m.inGroup
  }

  /**
    A process outlives the group because it left it: the target itself, or on Linux, where
    the guardian waits for every descendant, any of them.
   */
  ghost predicate HeldUp(s: State, linux: bool) {
    if linux && !s.guardian.StatusFailed? then exists q | q in s.members :: Escaped(s.members[q])
    else s.target.Some? && s.target.value in s.members && Escaped(s.members[s.target.value])
  }

  function NotDead(members: map<int, Member>): set<int> {
    set q | q in members && !members[q].life.Dead?
  }

  function Stage(g: Phase): nat {
    match g
    case Watching => 3
    case StatusFailed(killed) => if killed then 1 else 2
    case TargetExited(killed) => if killed then 1 else 2
    case OwnerLost(killed) => if killed then 1 else 2
    case _ => 0
  }

  /** How many unaided steps there can be at most. */
  function Work(s: State): nat {
    Stage(s.guardian) + |NotDead(s.members)| + |s.members.Keys|
  }

  /** After the kill nobody in the group is alive; who is alive has escaped. */
  lemma {:induction false} NextStep(s: State, linux: bool) returns (a: Action, t: State)
    requires Inv(s, linux) && Kept(s) && Ending(s) && !HeldUp(s, linux)
    ensures Unaided(s, a, t, linux)
  {
    if s.guardian.Watching? {
      if !s.ownerOpen {
        a, t := SeeOwner, s.(guardian := OwnerLost(false));
      } else if s.targetReaped {
        a, t := SeeTarget, s.(guardian := TargetExited(false));
      } else {
        a, t := ReapTarget, s.(members := Without(s.members, s.target.value), targetReaped := true);
      }
    } else if !s.guardian.killed {
      a, t := KillGroup, s.(guardian := s.guardian.(killed := true), members := DoomGroup(s.members));
    } else if !s.targetReaped {
      a, t := TargetNext(s, linux);
    } else if s.guardian.StatusFailed? {
      a, t := Leave, Depart(s, false);
    } else if linux && s.members != map[] {
      a, t := DescendantNext(s);
    } else {
      a, t := Leave, Depart(s, true);
    }
  }

  lemma {:induction false} TargetNext(s: State, linux: bool) returns (a: Action, t: State)
    requires Inv(s, linux) && Kept(s) && (s.guardian == StatusFailed(true) || s.guardian == OwnerLost(true))
    requires !s.targetReaped && !HeldUp(s, linux)
    ensures Unaided(s, a, t, linux)
  {
    hide Family, Protocol;
    var p := s.target.value;
    if s.members[p].life.Dead? {
      a, t := ReapTarget, s.(members := Without(s.members, p), targetReaped := true);
    } else {
      assert !Escaped(s.members[p]);
      a, t := Exit(p), s.(members := ExitOf(s, p, linux));
    }
  }

  lemma {:induction false} DescendantNext(s: State) returns (a: Action, t: State)
    requires Inv(s, true) && s.targetReaped && (s.guardian == TargetExited(true) || s.guardian == OwnerLost(true))
    requires s.members != map[] && !HeldUp(s, true)
    ensures Unaided(s, a, t, true)
  {
    hide Family, Protocol;
    if p :| p in s.members && !s.members[p].life.Dead? {
      assert !Escaped(s.members[p]);
      a, t := Exit(p), s.(members := ExitOf(s, p, true));
    } else {
      SomeChild(s);
      var p :| p in s.members && s.members[p].parent == GUARDIAN;
      a, t := Reap(p), s.(members := Without(s.members, p));
    }
  }

  // ----- They come to an end ---------------------------------------------------------------------

  lemma DoomedAlike(members: map<int, Member>)
    ensures DoomGroup(members).Keys == members.Keys && NotDead(DoomGroup(members)) == NotDead(members)
  {
    assert forall q :: q in NotDead(DoomGroup(members)) <==> q in NotDead(members);
  }

  lemma AbandonedAlike(s: State)
    ensures Abandoned(s).Keys == s.members.Keys && NotDead(Abandoned(s)) == NotDead(s.members)
  {
    assert forall q :: q in NotDead(Abandoned(s)) <==> q in NotDead(s.members);
  }

  lemma ExitedAlike(s: State, p: int, linux: bool)
    requires p in s.members && !s.members[p].life.Dead?
    ensures ExitOf(s, p, linux).Keys == s.members.Keys
    ensures NotDead(ExitOf(s, p, linux)) == NotDead(s.members) - {p} && p in NotDead(s.members)
  {
    assert forall q :: q in NotDead(ExitOf(s, p, linux)) <==> q in NotDead(s.members) - {p};
  }

  lemma ReapedAlike(members: map<int, Member>, p: int)
    requires p in members && members[p].life.Dead?
    ensures Without(members, p).Keys == members.Keys - {p} && NotDead(Without(members, p)) == NotDead(members)
  {
    assert forall q :: q in NotDead(Without(members, p)) <==> q in NotDead(members);
  }

  /** What the guardian leaves with: whether it had come to watch. */
  predicate Watched(g: Phase) {
    if g.Left? then g.watched else !g.StatusFailed?
  }

  /** What each unaided step does to the guardian's phase and to the processes. */
  lemma {:induction false} UnaidedEffect(s: State, a: Action, t: State, linux: bool)
    requires (Ending(s) || s.guardian.Left?) && Unaided(s, a, t, linux)
    ensures Ending(t) || t.guardian.Left?
    ensures a.Exit? || a.ReapTarget? || a.Reap? ==> t.guardian == s.guardian
    ensures a.Exit? ==> a.p in s.members && s.members[a.p].life.Doomed? && t.members == ExitOf(s, a.p, linux)
    ensures a.ReapTarget? ==> s.target.Some? && s.target.value in s.members &&
                              s.members[s.target.value].life.Dead? && t.members == Without(s.members, s.target.value)
    ensures a.Reap? ==> a.p in s.members && s.members[a.p].life.Dead? && t.members == Without(s.members, a.p)
    ensures !a.Exit? && !a.ReapTarget? && !a.Reap? ==>
              Stage(t.guardian) < Stage(s.guardian) &&
              (t.members == s.members || t.members == DoomGroup(s.members) || t.members == Abandoned(s))
    ensures t.target == s.target && Watched(s.guardian) == Watched(t.guardian)
  {
    hide DoomGroup, Abandoned, Without;
  }

  /** Every unaided step leaves less to do. */
  lemma {:induction false} WorkDecreases(s: State, a: Action, t: State, linux: bool)
    requires (Ending(s) || s.guardian.Left?) && Unaided(s, a, t, linux)
    ensures Work(t) < Work(s) && (Ending(t) || t.guardian.Left?)
  {
    hide NotDead, Unaided, Ending, Stage, ExitOf, DoomGroup, Abandoned, Without;
    UnaidedEffect(s, a, t, linux);
    if a.Exit? {
      ExitedAlike(s, a.p, linux);
    } else if a.ReapTarget? {
      ReapedAlike(s.members, s.target.value);
    } else if a.Reap? {
      ReapedAlike(s.members, a.p);
    } else {
      DoomedAlike(s.members);
      AbandonedAlike(s);
    }
  }

  /** Nobody who escaped is killed, exits or is reaped meanwhile, and nobody escapes. */
  lemma {:induction false} EscapedStays(s: State, a: Action, t: State, linux: bool, q: int)
    requires (Ending(s) || s.guardian.Left?) && Unaided(s, a, t, linux)
    ensures (q in s.members && Escaped(s.members[q])) <==> (q in t.members && Escaped(t.members[q]))
  {
    hide Unaided, Ending, Stage;
    UnaidedEffect(s, a, t, linux);
  }

  lemma {:induction false} HeldUpStays(s: State, a: Action, t: State, linux: bool)
    requires Ending(s) && Ending(t) && Unaided(s, a, t, linux)
    ensures HeldUp(s, linux) <==> HeldUp(t, linux)
  {
    hide Escaped, Unaided, Stage, ExitOf, DoomGroup, Abandoned, Without;
    UnaidedEffect(s, a, t, linux);
    forall q: int ensures (q in s.members && Escaped(s.members[q])) <==> (q in t.members && Escaped(t.members[q])) {
      EscapedStays(s, a, t, linux, q);
    }
  }

  /** Held up, the guardian does not leave. */
  lemma {:induction false} HeldUpRemains(s: State, a: Action, t: State, linux: bool)
    requires Inv(s, linux) && Kept(s) && Ending(s) && HeldUp(s, linux) && Unaided(s, a, t, linux)
    ensures Ending(t)
  {
    hide Protocol;
    if a.Leave? && linux && !s.guardian.StatusFailed? {
      SomeChild(s);
    }
  }

  ghost predicate UnaidedMove(s: State, t: State, linux: bool) {
    exists a :: Unaided(s, a, t, linux)
  }

  ghost predicate UnaidedRun(states: seq<State>, linux: bool) {
    states != [] && forall i | 0 < i < |states| :: UnaidedMove(states[i - 1], states[i], linux)
  }

  lemma UnaidedPrefix(states: seq<State>, n: nat, linux: bool)
    requires UnaidedRun(states, linux) && 0 < n <= |states|
    ensures UnaidedRun(states[..n], linux)
  {
    forall i | 0 < i < n ensures UnaidedMove(states[..n][i - 1], states[..n][i], linux) {
      assert UnaidedMove(states[i - 1], states[i], linux);
    }
  }

  lemma UnaidedIsStep(s: State, a: Action, t: State, linux: bool)
    requires Unaided(s, a, t, linux)
    ensures Step(s, t, linux)
  {
  }

  lemma {:induction false} UnaidedKeeps(states: seq<State>, linux: bool)
    requires UnaidedRun(states, linux)
    requires Inv(states[0], linux) && Kept(states[0]) && Ending(states[0])
    ensures var last := states[|states| - 1];
            && Inv(last, linux) && Kept(last) && (Ending(last) || last.guardian.Left?)
            && Work(last) + |states| - 1 <= Work(states[0])
            && (Ending(last) ==> (HeldUp(last, linux) <==> HeldUp(states[0], linux)))
            && (HeldUp(states[0], linux) ==> Ending(last))
            && Watched(last.guardian) == Watched(states[0].guardian)
    decreases |states|
  {
    hide Inv, Kept, Unaided, Work, HeldUp, Watched;
    if |states| > 1 {
      var n := |states| - 1;
      UnaidedPrefix(states, n, linux);
      UnaidedKeeps(states[..n], linux);
      var s, t := states[n - 1], states[n];
      assert s == states[..n][n - 1] && UnaidedMove(s, t, linux);
      var a :| Unaided(s, a, t, linux);
      UnaidedIsStep(s, a, t, linux);
      StepKeepsKept(s, t, linux);
      WorkDecreases(s, a, t, linux);
      UnaidedEffect(s, a, t, linux);
      if Ending(s) && Ending(t) {
        HeldUpStays(s, a, t, linux);
      }
      if Ending(s) && HeldUp(s, linux) {
        HeldUpRemains(s, a, t, linux);
      }
    }
  }

  // ----- The theorems ------------------------------------------------------------------------------

  /** Nothing more happens unless somebody else does something. */
  ghost predicate AtRest(s: State, linux: bool) {
    forall a, t :: !Unaided(s, a, t, linux)
  }

  /** The guardian has left by its own code, and nobody is left behind. */
  ghost predicate Over(s: State, linux: bool, watched: bool) {
    s.guardian == Left(watched) && NoneAlive(s.members) && (linux && watched ==> s.members == map[])
  }

  /**
    A guardian with an ending to see to cannot stop halfway: whatever it and the processes
    killed do, after a bounded number of their steps it has left and nobody of the group
    is alive, unless somebody who escaped the group holds it up.
   */
  lemma {:induction false} ComesToAnEnd(states: seq<State>, linux: bool)
    requires UnaidedRun(states, linux) && Reaches(linux, states[0]) && Ending(states[0])
    ensures |states| - 1 <= Work(states[0])
    ensures AtRest(states[|states| - 1], linux) && !HeldUp(states[0], linux) ==>
              Over(states[|states| - 1], linux, !states[0].guardian.StatusFailed?)
  {
    hide Run, Inv, Kept, Unaided, Work, HeldUp;
    var run: seq<State> :| run != [] && Run(run, linux) && run[|run| - 1] == states[0];
    RunKeepsKept(run, linux, |run| - 1);
    UnaidedKeeps(states, linux);
    var last := states[|states| - 1];
    if AtRest(last, linux) && !HeldUp(states[0], linux) {
      if Ending(last) {
        var a, t := NextStep(last, linux);
      }
      LeftIsOver(last, linux);
    }
  }

  lemma LeftIsOver(s: State, linux: bool)
    requires Inv(s, linux) && s.guardian.Left?
    ensures Over(s, linux, s.guardian.watched)
  {
    hide Family, Protocol;
  }

  /** It can leave without anybody's help exactly if nobody holds it up. */
  lemma {:induction false} EndsExactly(s: State, linux: bool)
    requires Reaches(linux, s) && Ending(s)
    ensures !HeldUp(s, linux) <==>
            exists states: seq<State> ::
              UnaidedRun(states, linux) && states[0] == s && states[|states| - 1].guardian.Left?
  {
    hide Run, Inv, Kept, Unaided, Work, HeldUp;
    var run: seq<State> :| run != [] && Run(run, linux) && run[|run| - 1] == s;
    RunKeepsKept(run, linux, |run| - 1);
    if !HeldUp(s, linux) {
      var states := Onwards(s, linux);
    }
    if states: seq<State> :| UnaidedRun(states, linux) && states[0] == s && states[|states| - 1].guardian.Left? {
      UnaidedKeeps(states, linux);
      NotBoth(states[|states| - 1]);
    }
  }

  lemma NotBoth(s: State)
    ensures !(Ending(s) && s.guardian.Left?)
  {
  }

  lemma {:induction false} Onwards(s: State, linux: bool) returns (states: seq<State>)
    requires Inv(s, linux) && Kept(s) && (Ending(s) || s.guardian.Left?) && (Ending(s) ==> !HeldUp(s, linux))
    ensures UnaidedRun(states, linux) && states[0] == s && states[|states| - 1].guardian.Left?
    decreases Work(s)
  {
    hide Inv, Kept, Unaided, Work, HeldUp, Ending;
    states := [s];
    if !s.guardian.Left? {
      var a, t := NextStep(s, linux);
      WorkDecreases(s, a, t, linux);
      UnaidedIsStep(s, a, t, linux);
      StepKeepsKept(s, t, linux);
      if Ending(t) {
        HeldUpStays(s, a, t, linux);
      }
      var others := Onwards(t, linux);
      states := [s] + others;
      Prepended(s, a, others, linux);
    }
  }

  /** Held up or not, the group is killed. */
  lemma {:induction false} GroupIsKilled(s: State, linux: bool) returns (states: seq<State>)
    requires Reaches(linux, s) && Ending(s)
    ensures UnaidedRun(states, linux) && states[0] == s && NoneAlive(states[|states| - 1].members)
    decreases if s.guardian.Watching? then 2 else 1, if s.targetReaped then 0 else 1
  {
    hide Run, Inv, NoneAlive, Reaches;
    states := [s];
    if s.guardian.Watching? {
      var a, t := Noticed(s, linux);
      ReachesOn(linux, s, a, t);
      var others := GroupIsKilled(t, linux);
      states := [s] + others;
      Prepended(s, a, others, linux);
    } else if !s.guardian.killed {
      var t := s.(guardian := s.guardian.(killed := true), members := DoomGroup(s.members));
      states := [s, t];
      assert Unaided(s, KillGroup, t, linux) && UnaidedMove(s, t, linux);
      DoomedGroup(s.members);
    } else {
      KilledGroup(s, linux);
    }
  }

  lemma {:induction false} Noticed(s: State, linux: bool) returns (a: Action, t: State)
    requires Ending(s) && s.guardian.Watching?
    ensures GuardianStep(s, a, t, linux) && Ending(t)
    ensures !t.guardian.Watching? || (!s.targetReaped && t.targetReaped)
  {
    if !s.ownerOpen {
      a, t := SeeOwner, s.(guardian := OwnerLost(false));
    } else if s.targetReaped {
      a, t := SeeTarget, s.(guardian := TargetExited(false));
    } else {
      a, t := ReapTarget, s.(members := Without(s.members, s.target.value), targetReaped := true);
    }
  }

  lemma Prepended(s: State, a: Action, states: seq<State>, linux: bool)
    requires UnaidedRun(states, linux) && Unaided(s, a, states[0], linux)
    ensures UnaidedRun([s] + states, linux)
  {
    hide Unaided;
    var all := [s] + states;
    forall i | 0 < i < |all| ensures UnaidedMove(all[i - 1], all[i], linux) {
      if i > 1 {
        assert UnaidedMove(states[i - 2], states[i - 1], linux);
      }
    }
  }

  lemma DoomedGroup(members: map<int, Member>)
    ensures NoneAlive(DoomGroup(members))
  {
  }

  lemma KilledGroup(s: State, linux: bool)
    requires Reaches(linux, s) && GroupKilled(s.guardian)
    ensures NoneAlive(s.members)
  {
    hide Run, Inv, NoneAlive;
    var run: seq<State> :| run != [] && Run(run, linux) && run[|run| - 1] == s;
    RunKeeps(run, linux, |run| - 1);
    InvKilled(s, linux);
  }

  lemma InvKilled(s: State, linux: bool)
    requires Inv(s, linux) && GroupKilled(s.guardian)
    ensures NoneAlive(s.members)
  {
    hide Family, Protocol, NoneAlive;
  }

  // ----- Held up -------------------------------------------------------------------------------

  /** The target started a process that left the group; then the owner died. */
  function Abducted(): State {
    Attended().(owner := Crashed, ownerOpen := false, next := 3,
                members := map[1 := Member(GUARDIAN, true, Alive), 2 := Member(1, false, Alive)])
  }

  /** On Linux the guardian then waits for as long as that process lives. */
  lemma {:induction false} EscapedHoldsUp()
    ensures Reaches(true, Abducted()) && Ending(Abducted()) && HeldUp(Abducted(), true)
  {
    hide Reaches;
    ReachesAttended(true);
    var s := Attended().(next := 3, members := map[1 := Member(GUARDIAN, true, Alive), 2 := Member(1, true, Alive)]);
    ReachesOn(true, Attended(), Fork(1), s);
    var t := s.(members := Abducted().members);
    ReachesOn(true, s, LeaveGroup(2), t);
    ReachesOn(true, t, Crash, Abducted());
    assert 2 in Abducted().members && Escaped(Abducted().members[2]);
  }
}
