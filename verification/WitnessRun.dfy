/** The loop of internal/witness/run.go beside the processes it started: who is left when it returns. */
module WitnessRun {
  import Guardian
  import opened RunLoop

  /**
    A run of owner, guardian and target beside one of the loop: the owner's start failed, or
    its wait has returned exactly if the guardian's end is among the events.
   */
  ghost predicate Beside(states: seq<Guardian.State>, linux: bool, started: bool, events: seq<Stamped>) {
    && states != [] && Guardian.Run(states, linux)
    && var owner := states[|states| - 1].owner;
       if !started then Guardian.FailedStart(owner)
       else if FirstGone(events) < |events| then owner.Waited?
       else owner.Ready?
  }

  /** Such runs exist: the wait can return. */
  lemma {:induction false} SomeRunBeside(linux: bool, events: seq<Stamped>)
    requires FirstGone(events) < |events|
    ensures exists states: seq<Guardian.State> :: Beside(states, linux, true, events)
  {
    hide Guardian.Run;
    Guardian.WaitReturns(linux);
    var end := Guardian.Depart(Guardian.Done(), true).(owner := Guardian.Waited, ownerOpen := false);
    var states: seq<Guardian.State> :|
      states != [] && Guardian.Run(states, linux) && states[|states| - 1] == end;
    assert Beside(states, linux, true, events);
  }

  /** After a start, the loop returned. */
  predicate Returned(outcome: Outcome) {
    outcome.NotRecorded? || outcome.Exited? || outcome.StatusUnavailable?
  }

  /** What may be left at the end of a run with this outcome. */
  ghost predicate Clean(last: Guardian.State, linux: bool, outcome: Outcome) {
    && (Returned(outcome) ==> Guardian.NoneAlive(last.members) && (linux ==> last.members == map[]))
    && (outcome.NotStarted? ==> Guardian.NoneAlive(last.members) || last.owner.FailedClose?)
  }

  /** Whoever the processes were and however they were interleaved with the owner. */
  ghost predicate LeavesNobody(linux: bool, started: bool, events: seq<Stamped>, outcome: Outcome) {
    forall states: seq<Guardian.State> | states != [] && Beside(states, linux, started, events) ::
      Clean(states[|states| - 1], linux, outcome)
  }

  lemma {:induction false} NobodyLeft(linux: bool, started: bool, events: seq<Stamped>, outcome: Outcome)
    requires outcome.NotStarted? <==> !started
    requires Returned(outcome) ==> FirstGone(events) < |events|
    ensures LeavesNobody(linux, started, events, outcome)
  {
    hide Guardian.Run, Guardian.NoneAlive, FirstGone;
    forall states: seq<Guardian.State> | states != [] && Beside(states, linux, started, events)
      ensures Clean(states[|states| - 1], linux, outcome)
    {
      var i := |states| - 1;
      if Returned(outcome) {
        Guardian.WaitedMeansLeft(states, linux, i);
      } else if !started && !states[i].owner.FailedClose? {
        Guardian.FailedStartIsClean(states, linux, i);
      }
    }
  }

  /**
    `Run`: when it returns after a successful start, nobody is alive in the target's group,
    and on Linux no descendant of the guardian is left.
   */
  method RunWitness(supervisor: UnixSupervisor, recorded: bool, grace: int, startedAt: int, events: seq<Stamped>,
                    ghost linux: bool)
    returns (outcome: Outcome)
    requires supervisor.Valid() && !supervisor.started && supervisor.sent == []
    modifies supervisor
    ensures LeavesNobody(linux, supervisor.started, events, outcome)
    ensures Returned(outcome) ==> supervisor.started && supervisor.complete
  {
    outcome := Run(supervisor, recorded, grace, startedAt, events);
    NobodyLeft(linux, supervisor.started, events, outcome);
  }
}
