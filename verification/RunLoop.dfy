/** The supervisor's lifecycle flags and the owner's event loop (internal/witness/supervisor_unix.go, run.go). */
module RunLoop {
  import opened Basics

  datatype GroupSignal = Terminate | Kill | Forwarded(signal: int)

  /** A signal to the target's group, and when. */
  datatype Sent = Sent(signal: GroupSignal, at: int)

  class UnixSupervisor {
    /** `guardian != nil`. */
    var started: bool
    /** `owner != nil`: the write end of the owner pipe. */
    var ownerOpen: bool
    var pid: int
    var waited: bool
    var complete: bool
    ghost var sent: seq<Sent>

    constructor ()
      ensures Valid() && !started && sent == []
    {
      started, ownerOpen, pid, waited, complete, sent := false, false, 0, false, false, [];
    }

    /** What holds whenever the mutex is free. */
    ghost predicate Valid()
      reads this
    {
      && (started <==> pid > 0) && pid >= 0 && (waited ==> started) && (complete ==> waited)
      && (ownerOpen <==> started && !complete)
    }

    method Start() returns (ok: bool)
      requires Valid()
      modifies this
      ensures Valid() && sent == old(sent) && waited == old(waited) && complete == old(complete)
      ensures ok ==> !old(started) && started
      ensures !ok ==> started == old(started) && pid == old(pid) && ownerOpen == old(ownerOpen)
    {
      if started {
        return false;
      }
      if * {
        return false;
      }
      var reported: int :| reported > 0;
      started, ownerOpen, pid := true, true, reported;
      ok := true;
    }

    /** The first critical section of `Wait`: only one caller gets through. */
    method ClaimWait() returns (ok: bool)
      requires Valid()
      modifies this`waited
      ensures Valid() && (ok <==> old(started) && !old(waited)) && (ok ==> waited) && (!ok ==> waited == old(waited))
    {
      if !started || pid <= 0 || waited {
        return false;
      }
      waited := true;
      ok := true;
    }

    /** The last one, after the guardian has been waited for. */
    method FinishWait()
      requires Valid() && waited
      modifies this`complete, this`ownerOpen
      ensures Valid() && complete
    {
      complete, ownerOpen := true, false;
    }

    /** Blocks until the guardian ends with this exit code; None for a guardian that does not end. */
    method Wait(exit: Option<int>) returns (r: Option<int>)
      requires Valid()
      modifies this`waited, this`complete, this`ownerOpen
      ensures Valid() && (old(started) && !old(waited) ==> waited && r == exit)
      ensures complete == (old(complete) || (old(started) && !old(waited) && exit.Some?))
      ensures !(old(started) && !old(waited)) ==> r.None?
    {
      var claimed := ClaimWait();
      if !claimed {
        return None;
      }
      if exit.Some? {
        FinishWait();
      }
      r := exit;
    }

    /** Nothing is sent once the guardian has been waited for, nor before there is a target. */
    method SignalGroup(signal: GroupSignal, at: int) returns (ok: bool)
      requires Valid()
      modifies this`sent
      ensures Valid() && sent == (if started && !complete then old(sent) + [Sent(signal, at)] else old(sent))
      ensures ok <==> started
    {
      if complete {
        return true;
      }
      if pid <= 0 {
        return false;
      }
      sent := sent + [Sent(signal, at)];
      ok := true;
    }
  }

  // ----- Events --------------------------------------------------------------------------------

  /**
    What happens around the loop.  The guardian ends on its own, and the goroutine that waits
    for it marks the supervisor complete; its report can be received from then on.  At a tick
    only the clock has moved on.
   */
  datatype Event = GuardianGone(code: int) | ReportReady | StdinDone | ContextDone | Signal(signal: int) | Tick

  datatype Stamped = Stamped(event: Event, at: int)

  predicate Stops(e: Event) {
    e.StdinDone? || e.ContextDone? || e.Signal?
  }

  /** The index of the first end of input, cancellation or signal. */
  function FirstStop(events: seq<Stamped>): (n: nat)
    ensures n <= |events| && (n < |events| ==> Stops(events[n].event))
    ensures forall i | 0 <= i < n :: !Stops(events[i].event)
  {
    if events == [] then 0 else if Stops(events[0].event) then 0 else 1 + FirstStop(events[1..])
  }

  predicate Due(e: Stamped, deadline: int) {
    e.event.Tick? && e.at >= deadline
  }

  /** The index of the first tick at or after the deadline. */
  function FirstDue(events: seq<Stamped>, deadline: int): (n: nat)
    ensures n <= |events| && (n < |events| ==> Due(events[n], deadline))
    ensures forall i | 0 <= i < n :: !Due(events[i], deadline)
  {
    if events == [] then 0 else if Due(events[0], deadline) then 0 else 1 + FirstDue(events[1..], deadline)
  }

  /** The end of input asks for nothing; a cancellation terminates; a signal is passed on. */
  function StopSignals(e: Stamped): seq<Sent> {
    match e.event
    case ContextDone => [Sent(Terminate, e.at)]
    case Signal(signal) => [Sent(Forwarded(signal), e.at)]
    case _ => []
  }

  /**
    What the group is sent in the course of these events: the first stop fixes the
    deadline, later ones neither signal again nor postpone it, and past the deadline
    there is one kill.
   */
  function Escalation(events: seq<Stamped>, grace: int): seq<Sent> {
    var f := FirstStop(events);
    if f == |events| then []
    else
      var later := events[f + 1..];
      var g := FirstDue(later, events[f].at + grace);
      StopSignals(events[f]) + if g < |later| then [Sent(Kill, later[g].at)] else []
  }

  /**
    At most one kill, never before the first stop plus the grace period; at most one other signal,
    none after end of input.
   */
  lemma {:induction false} EscalationBounds(events: seq<Stamped>, grace: int)
    ensures var sent := Escalation(events, grace); var f := FirstStop(events);
            && (sent != [] ==> f < |events|)
            && (forall k | 0 <= k < |sent| && sent[k].signal.Kill? ::
                 k == |sent| - 1 && sent[k].at >= events[f].at + grace)
            && (forall k | 0 <= k < |sent| && !sent[k].signal.Kill? ::
                 k == 0 && sent[k].at == events[f].at && !events[f].event.StdinDone?)
  {
  }

  /** The f-th event is the first end of input, cancellation or signal. */
  ghost predicate BeginsStop(events: seq<Stamped>, f: nat) {
    f < |events| && events[f].event !in {Tick, ReportReady} && !events[f].event.GuardianGone? &&
    forall i | 0 <= i < f :: events[i].event in {Tick, ReportReady} || events[i].event.GuardianGone?
  }

  /** The k-th event is the first tick at or past the grace period after that stop. */
  ghost predicate Expires(events: seq<Stamped>, grace: int, f: nat, k: nat) {
    f < k < |events| && events[k].event == Tick && events[k].at >= events[f].at + grace &&
    forall j | f < j < k :: events[j].event == Tick ==> events[j].at < events[f].at + grace
  }

  /** A cancellation is answered by a termination, a signal by itself, the end of input by nothing. */
  predicate Replies(stop: Stamped, x: Sent) {
    || (stop.event == ContextDone && x == Sent(Terminate, stop.at))
    || (stop.event.Signal? && x == Sent(Forwarded(stop.event.signal), stop.at))
  }

  ghost predicate Kills(events: seq<Stamped>, grace: int, f: nat, x: Sent) {
    exists k: nat :: Expires(events, grace, f, k) && x == Sent(Kill, events[k].at)
  }

  /** What the events call for: the reply to the first stop, and a kill when the grace period has expired. */
  ghost predicate CalledFor(events: seq<Stamped>, grace: int, x: Sent) {
    exists f: nat :: BeginsStop(events, f) && (Replies(events[f], x) || Kills(events, grace, f, x))
  }

  /** Everything called for is sent, nothing else, nothing twice, and the kill last. */
  ghost predicate Answered(events: seq<Stamped>, grace: int, sent: seq<Sent>) {
    && (forall x :: x in sent <==> CalledFor(events, grace, x))
    && |sent| <= 2 && (|sent| == 2 ==> !sent[0].signal.Kill? && sent[1].signal.Kill?)
  }

  lemma {:induction false} FirstStopBegins(events: seq<Stamped>, f: nat)
    ensures BeginsStop(events, f) <==> f == FirstStop(events) < |events|
  {
    var n := FirstStop(events);
    assert forall i | 0 <= i < |events| ::
        Stops(events[i].event) <==> !(events[i].event in {Tick, ReportReady} || events[i].event.GuardianGone?);
  }

  lemma {:induction false} FirstDueExpires(events: seq<Stamped>, grace: int, f: nat, k: nat)
    requires f < |events|
    ensures var later := events[f + 1..]; var g := FirstDue(later, events[f].at + grace);
            Expires(events, grace, f, k) <==> k == f + 1 + g < |events|
  {
    var later := events[f + 1..];
    var d := events[f].at + grace;
    var g := FirstDue(later, d);
    assert forall j | f < j < |events| :: events[j] == later[j - f - 1];
    assert forall j | f < j < |events| ::
        Due(later[j - f - 1], d) <==> (events[j].event == Tick && events[j].at >= d);
    if g < |later| {
      assert later[g] == events[f + 1 + g];
    }
    if Expires(events, grace, f, k) {
      assert Due(later[k - f - 1], d);
    }
    if g < |later| {
      forall j | f < j < f + 1 + g ensures events[j].event == Tick ==> events[j].at < d {
        assert !Due(later[j - f - 1], d);
      }
    }
  }

  /** What is sent is exactly what the events call for. */
  lemma {:induction false} EscalationAnswers(events: seq<Stamped>, grace: int)
    ensures Answered(events, grace, Escalation(events, grace))
  {
    hide BeginsStop, Expires, FirstStop, FirstDue;
    forall f: nat ensures BeginsStop(events, f) <==> f == FirstStop(events) < |events| {
      FirstStopBegins(events, f);
    }
    var f := FirstStop(events);
    if f < |events| {
      forall k: nat
        ensures Expires(events, grace, f, k) <==>
                k == f + 1 + FirstDue(events[f + 1..], events[f].at + grace) < |events|
      {
        FirstDueExpires(events, grace, f, k);
      }
      forall x ensures x in Escalation(events, grace) <==> CalledFor(events, grace, x) {
        assert CalledFor(events, grace, x) <==> Replies(events[f], x) || Kills(events, grace, f, x);
        assert x in StopSignals(events[f]) <==> Replies(events[f], x);
      }
    }
  }

  lemma {:induction false} FirstStopSnoc(events: seq<Stamped>, e: Stamped)
    ensures FirstStop(events + [e]) ==
            if FirstStop(events) < |events| then FirstStop(events)
            else if Stops(e.event) then |events| else |events| + 1
  {
    var all := events + [e];
    assert forall i | 0 <= i < |events| :: all[i] == events[i];
    assert all[|events|] == e;
  }

  lemma {:induction false} FirstDueSnoc(events: seq<Stamped>, e: Stamped, deadline: int)
    ensures FirstDue(events + [e], deadline) ==
            if FirstDue(events, deadline) < |events| then FirstDue(events, deadline)
            else if Due(e, deadline) then |events| else |events| + 1
  {
    var all := events + [e];
    assert forall i | 0 <= i < |events| :: all[i] == events[i];
    assert all[|events|] == e;
  }

  /** What the loop remembers of the events so far: whether it is stopping, and the running timer's deadline. */
  ghost predicate Remembers(events: seq<Stamped>, grace: int, stopping: bool, deadline: Option<int>) {
    var f := FirstStop(events);
    && (stopping <==> f < |events|)
    && (stopping ==>
          deadline == (if FirstDue(events[f + 1..], events[f].at + grace) < |events[f + 1..]| then None
                       else Some(events[f].at + grace)))
    && (!stopping ==> deadline == None)
  }

  /** What one more event adds. */
  function Added(e: Stamped, stopping: bool, deadline: Option<int>): seq<Sent> {
    if !stopping && Stops(e.event) then StopSignals(e)
    else if deadline.Some? && Due(e, deadline.value) then [Sent(Kill, e.at)]
    else []
  }

  function NextDeadline(e: Stamped, grace: int, stopping: bool, deadline: Option<int>): Option<int> {
    if !stopping && Stops(e.event) then Some(e.at + grace)
    else if deadline.Some? && Due(e, deadline.value) then None
    else deadline
  }

  lemma {:induction false} EscalationSnoc(events: seq<Stamped>, e: Stamped, grace: int, stopping: bool,
                                          deadline: Option<int>)
    requires Remembers(events, grace, stopping, deadline)
    ensures Escalation(events + [e], grace) == Escalation(events, grace) + Added(e, stopping, deadline)
    ensures Remembers(events + [e], grace, stopping || Stops(e.event), NextDeadline(e, grace, stopping, deadline))
  {
    hide *;
    if stopping {
      StoppingSnoc(events, e, grace, deadline);
    } else {
      StartingSnoc(events, e, grace, deadline);
    }
  }

  /** Nothing has stopped the loop yet. */
  lemma {:induction false} StartingSnoc(events: seq<Stamped>, e: Stamped, grace: int, deadline: Option<int>)
    requires Remembers(events, grace, false, deadline)
    ensures Escalation(events + [e], grace) == Escalation(events, grace) + Added(e, false, deadline)
    ensures Remembers(events + [e], grace, Stops(e.event), NextDeadline(e, grace, false, deadline))
  {
    hide FirstStop, FirstDue, StopSignals;
    FirstStopSnoc(events, e);
    var f := FirstStop(events);
    if Stops(e.event) {
      assert (events + [e])[f + 1..] == [];
      assert StopSignals(e) + [] == StopSignals(e) && [] + StopSignals(e) == StopSignals(e);
    }
  }

  /** The timer is running, or has fired. */
  lemma {:induction false} StoppingSnoc(events: seq<Stamped>, e: Stamped, grace: int, deadline: Option<int>)
    requires Remembers(events, grace, true, deadline)
    ensures Escalation(events + [e], grace) == Escalation(events, grace) + Added(e, true, deadline)
    ensures Remembers(events + [e], grace, true, NextDeadline(e, grace, true, deadline))
  {
    hide FirstStop, FirstDue, StopSignals;
    FirstStopSnoc(events, e);
    var f := FirstStop(events);
    var later := events[f + 1..];
    assert (events + [e])[f + 1..] == later + [e] && (events + [e])[f] == events[f];
    var d := events[f].at + grace;
    FirstDueSnoc(later, e, d);
    var g := FirstDue(later, d);
    if g < |later| {
      assert (later + [e])[g] == later[g];
    } else if Due(e, d) {
      assert (later + [e])[|later|] == e;
      assert StopSignals(events[f]) + [] == StopSignals(events[f]);
    }
  }

  // ----- The loop --------------------------------------------------------------------------------

  datatype Outcome = NotStarted | NotRecorded | Exited(code: int) | StatusUnavailable | StillRunning

  /** The index at which the guardian ends. */
  function FirstGone(events: seq<Stamped>): (n: nat)
    ensures n <= |events| && (n < |events| ==> events[n].event.GuardianGone?)
    ensures forall i | 0 <= i < n :: !events[i].event.GuardianGone?
  {
    if events == [] then 0 else if events[0].event.GuardianGone? then 0 else 1 + FirstGone(events[1..])
  }

  /** Its exit code, if it ends. */
  function GuardianExit(events: seq<Stamped>): Option<int> {
    if FirstGone(events) < |events| then Some(events[FirstGone(events)].event.code) else None
  }

  /** The guardian ended, and its report was ready after that. */
  ghost predicate Reported(events: seq<Stamped>) {
    exists i :: FirstGone(events) < i < |events| && events[i].event.ReportReady?
  }

  /** What the loop makes of it all: it returns exactly when the report is received. */
  ghost predicate Concluded(events: seq<Stamped>, outcome: Outcome) {
    if !Reported(events) then outcome.StillRunning?
    else outcome == if GuardianExit(events).value < 0 then StatusUnavailable else Exited(GuardianExit(events).value)
  }

  /**
    `Run` from `Start` on.  Once the launch is recorded the group is sent exactly what the
    escalation prescribes for the events up to the guardian's end, whatever the outcome,
    and the loop returns exactly when the guardian has ended and been reported.
   */
  method Run(supervisor: UnixSupervisor, recorded: bool, grace: int, startedAt: int, events: seq<Stamped>)
    returns (outcome: Outcome)
    requires supervisor.Valid() && !supervisor.started && supervisor.sent == []
    modifies supervisor
    ensures outcome.NotStarted? <==> !supervisor.started
    ensures outcome.NotStarted? ==> supervisor.sent == []
    ensures supervisor.started ==> (supervisor.complete <==> FirstGone(events) < |events|)
    ensures supervisor.started && !recorded ==>
              supervisor.sent == [Sent(Kill, startedAt)] &&
              outcome == if FirstGone(events) < |events| then NotRecorded else StillRunning
    ensures supervisor.started && recorded ==>
              supervisor.sent == Escalation(events[..FirstGone(events)], grace) && Concluded(events, outcome)
    ensures supervisor.started && recorded ==> Answered(events[..FirstGone(events)], grace, supervisor.sent)
  {
    EscalationAnswers(events[..FirstGone(events)], grace);
    var started := supervisor.Start();
    if !started {
      return NotStarted;
    }
    if !recorded {
      var _ := supervisor.SignalGroup(Kill, startedAt);
      var exit := supervisor.Wait(GuardianExit(events));
      return if exit.Some? then NotRecorded else StillRunning;
    }
    outcome := Loop(supervisor, grace, events);
  }

  method Loop(supervisor: UnixSupervisor, grace: int, events: seq<Stamped>) returns (outcome: Outcome)
    requires supervisor.Valid() && supervisor.started && !supervisor.waited && supervisor.sent == []
    modifies supervisor
    ensures supervisor.started && (supervisor.complete <==> FirstGone(events) < |events|)
    ensures supervisor.sent == Escalation(events[..FirstGone(events)], grace) && Concluded(events, outcome)
  {
    hide Remembers, Escalation, FirstStop;
    // the goroutine that waits for the guardian
    var _ := supervisor.ClaimWait();
    var stopping, deadline: Option<int>, exit: Option<int> := false, None, None;
    var i := 0;
    NothingYet(events, grace);
    while i < |events| && !(exit.Some? && events[i].event.ReportReady?)
      invariant 0 <= i <= |events| && supervisor.Valid() && supervisor.started && supervisor.waited
      invariant supervisor.complete <==> exit.Some?
      invariant exit == if FirstGone(events) < i then GuardianExit(events) else None
      invariant forall j | FirstGone(events) < j < i :: !events[j].event.ReportReady?
      invariant Remembers(events[..i], grace, stopping, deadline) && (!stopping ==> deadline.None?)
      invariant supervisor.sent == Escalation(events[..Min(i, FirstGone(events))], grace)
    {
      assert events[..i + 1] == events[..i] + [events[i]];
      EscalationSnoc(events[..i], events[i], grace, stopping, deadline);
      if events[i].event.GuardianGone? {
        if exit.None? {
          supervisor.FinishWait();
          exit := Some(events[i].event.code);
        }
      } else if !events[i].event.ReportReady? {
        stopping, deadline := Select(supervisor, events[i], grace, stopping, deadline);
      }
      i := i + 1;
    }
    if i == |events| {
      return StillRunning;
    }
    outcome := if exit.value < 0 then StatusUnavailable else Exited(exit.value);
  }

  lemma NothingYet(events: seq<Stamped>, grace: int)
    ensures Remembers(events[..0], grace, false, None) && Escalation(events[..0], grace) == []
  {
  }

  /** One round of the select statement. */
  method Select(supervisor: UnixSupervisor, e: Stamped, grace: int, wasStopping: bool, timer: Option<int>)
    returns (stopping: bool, deadline: Option<int>)
    requires supervisor.Valid() && supervisor.started && (!wasStopping ==> timer.None?)
    requires !e.event.GuardianGone? && !e.event.ReportReady?
    modifies supervisor`sent
    ensures supervisor.sent == old(supervisor.sent) + (if supervisor.complete then [] else Added(e, wasStopping, timer))
    ensures stopping == (wasStopping || Stops(e.event)) && deadline == NextDeadline(e, grace, wasStopping, timer)
  {
    stopping, deadline := wasStopping, timer;
    match e.event {
      case StdinDone =>
        if !stopping {
          stopping, deadline := true, Some(e.at + grace);
        }
      case ContextDone =>
        if !stopping {
          var _ := supervisor.SignalGroup(Terminate, e.at);
          stopping, deadline := true, Some(e.at + grace);
        }
      case Signal(signal) =>
        if !stopping {
          var _ := supervisor.SignalGroup(Forwarded(signal), e.at);
          stopping, deadline := true, Some(e.at + grace);
        }
      case Tick =>
        if deadline.Some? && e.at >= deadline.value {
          var _ := supervisor.SignalGroup(Kill, e.at);
          deadline := None;
        }
    }
  }
}
